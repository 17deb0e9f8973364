/**
 * `stripQualifiers`, which shortens a qualified variable name for display. The source first
 * splits on punctuation, then overwrites that result with a split on single spaces and
 * returns the last piece; only the second split is modelled, as it alone decides the result.
 */
module Tools {

  import opened Wrappers

  /** The pieces of `s` between single spaces, empty pieces included: one more than there are spaces. */
  function Fields(s: string): (r: seq<string>)
    ensures |r| >= 1
    ensures forall j :: 0 <= j < |r| ==> ' ' !in r[j]
  {
    if s == [] then [[]]
    else
      var f := Fields(s[..|s| - 1]);
      if s[|s| - 1] == ' ' then f + [[]]
      else f[..|f| - 1] + [f[|f| - 1] + [s[|s| - 1]]]
  }

  /** Removes the empty strings at the end of a list of pieces. */
  function DropTrailingEmpty(fs: seq<string>): (r: seq<string>)
    ensures r <= fs
    ensures r == [] || r[|r| - 1] != []
    ensures forall j :: |r| <= j < |fs| ==> fs[j] == []
  {
    if fs != [] && fs[|fs| - 1] == [] then DropTrailingEmpty(fs[..|fs| - 1]) else fs
  }

  /**
   * Java's `split(" ")`: a string without a space gives itself as the only piece; otherwise
   * the pieces between spaces, with trailing empty pieces removed.
   */
  function SplitOnSpace(s: string): (r: seq<string>)
    ensures forall j :: 0 <= j < |r| ==> ' ' !in r[j]
    ensures ' ' !in s ==> r == [s]
    ensures ' ' in s ==> r == [] || r[|r| - 1] != []
  {
    if ' ' !in s then [s] else DropTrailingEmpty(Fields(s))
  }

  /** The last piece of the space split; an empty split makes the array access throw. */
  function StripQualifiers(orig: string): Result<string, Exception> {
    var a := SplitOnSpace(orig);
    if |a| == 0 then Failure(IndexOutOfBounds) else Success(a[|a| - 1])
  }

  // An independent description of the result.

  predicate AllSpaces(s: string) {
    forall j :: 0 <= j < |s| ==> s[j] == ' '
  }

  /** `s` without its trailing spaces. */
  function TrimEnd(s: string): (r: string)
    ensures r <= s
    ensures r == [] || r[|r| - 1] != ' '
  {
    if s != [] && s[|s| - 1] == ' ' then TrimEnd(s[..|s| - 1]) else s
  }

  /** What `TrimEnd` removes is spaces only. */
  lemma {:induction false} TrimEndRemovesSpaces(s: string)
    ensures AllSpaces(s[|TrimEnd(s)|..])
  {
    if s != [] && s[|s| - 1] == ' ' {
      var init := s[..|s| - 1];
      TrimEndRemovesSpaces(init);
      var k := |TrimEnd(s)|;
      assert s[k..] == init[k..] + [' '];
    }
  }

  /** The longest suffix of `s` without a space. */
  function AfterLastSpace(s: string): (r: string)
    ensures |r| <= |s| && r == s[|s| - |r|..]
    ensures ' ' !in r
    ensures |r| == |s| || s[|s| - |r| - 1] == ' '
  {
    if s == [] || s[|s| - 1] == ' ' then [] else AfterLastSpace(s[..|s| - 1]) + [s[|s| - 1]]
  }

  lemma {:induction false} FieldsLast(s: string)
    ensures Fields(s)[|Fields(s)| - 1] == AfterLastSpace(s)
  {
    if s != [] {
      FieldsLast(s[..|s| - 1]);
    }
  }

  lemma DropAfterEmpty(f: seq<string>)
    ensures DropTrailingEmpty(f + [[]]) == DropTrailingEmpty(f)
  {
    assert (f + [[]])[..|f|] == f;
  }

  lemma AllSpacesSnoc(s: string)
    requires s != []
    ensures AllSpaces(s) <==> AllSpaces(s[..|s| - 1]) && s[|s| - 1] == ' '
  {
    assert forall j :: 0 <= j < |s| - 1 ==> s[..|s| - 1][j] == s[j];
  }

  /** The space split of `s` is empty exactly when `s` holds nothing but spaces. */
  lemma {:induction false} SplitFieldsEmpty(s: string)
    ensures DropTrailingEmpty(Fields(s)) == [] <==> AllSpaces(s)
  {
    if s != [] {
      var init := s[..|s| - 1];
      AllSpacesSnoc(s);
      if s[|s| - 1] == ' ' {
        SplitFieldsEmpty(init);
        DropAfterEmpty(Fields(init));
      } else {
        var f := Fields(s);
        assert f[|f| - 1] != [];
        assert DropTrailingEmpty(f) == f;
      }
    }
  }

  /** A trailing space adds an empty piece, which the split drops, and is trimmed. */
  lemma SplitSnocSpace(s: string)
    requires s != [] && s[|s| - 1] == ' '
    ensures DropTrailingEmpty(Fields(s)) == DropTrailingEmpty(Fields(s[..|s| - 1]))
    ensures TrimEnd(s) == TrimEnd(s[..|s| - 1])
  {
    DropAfterEmpty(Fields(s[..|s| - 1]));
  }

  /** A trailing non-space ends a non-empty last piece, which the split keeps. */
  lemma SplitSnocOther(s: string)
    requires s != [] && s[|s| - 1] != ' '
    ensures DropTrailingEmpty(Fields(s)) == Fields(s)
    ensures Fields(s)[|Fields(s)| - 1] == AfterLastSpace(TrimEnd(s))
  {
    FieldsLast(s);
    var f := Fields(s);
    assert f[|f| - 1] != [];
  }

  /** Otherwise its last piece is the last run of non-spaces once trailing spaces are removed. */
  lemma {:induction false} SplitFieldsLast(s: string)
    requires !AllSpaces(s)
    ensures var d := DropTrailingEmpty(Fields(s));
      d != [] && d[|d| - 1] == AfterLastSpace(TrimEnd(s))
  {
    SplitFieldsEmpty(s);
    if s[|s| - 1] == ' ' {
      AllSpacesSnoc(s);
      SplitFieldsLast(s[..|s| - 1]);
      SplitSnocSpace(s);
    } else {
      SplitSnocOther(s);
    }
  }

  lemma {:induction false} NoSpaceIsItsOwnLastPiece(s: string)
    requires ' ' !in s
    ensures AfterLastSpace(TrimEnd(s)) == s
  {
    if s != [] {
      NoSpaceIsItsOwnLastPiece(s[..|s| - 1]);
    }
  }

  /**
   * `stripQualifiers` throws exactly on a non-empty string of spaces only; otherwise it
   * returns the last maximal run of non-space characters (trailing spaces are ignored), and
   * the empty string for the empty string.
   */
  lemma StripQualifiersResult(s: string)
    ensures StripQualifiers(s).Failure? <==> s != [] && AllSpaces(s)
    ensures StripQualifiers(s).Success? ==> StripQualifiers(s).value == AfterLastSpace(TrimEnd(s))
  {
    if ' ' in s {
      SplitFieldsEmpty(s);
      if !AllSpaces(s) {
        SplitFieldsLast(s);
      }
    } else {
      NoSpaceIsItsOwnLastPiece(s);
      assert s != [] ==> s[0] != ' ';
    }
  }

  /**
   * The result contains no space, is preceded by a space unless it starts the string, and is
   * followed by nothing but spaces: it is a substring of the input that is a suffix of the
   * input once trailing spaces are removed, and non-empty when the input has a non-space.
   */
  lemma StripQualifiersShape(s: string)
    requires StripQualifiers(s).Success?
    ensures var r := StripQualifiers(s).value; var e := |TrimEnd(s)|;
      ' ' !in r && |r| <= e && r == s[e - |r|..e] && AllSpaces(s[e..]) &&
      (e - |r| == 0 || s[e - |r| - 1] == ' ') &&
      (r == [] <==> AllSpaces(s))
  {
    StripQualifiersResult(s);
    TrimEndRemovesSpaces(s);
    var t := TrimEnd(s);
    assert s[..|t|] == t;
    assert t == [] ==> s[|t|..] == s;
    assert t != [] ==> t[|t| - 1] == s[|t| - 1];
  }

  /** A string without a space is returned unchanged, punctuation and all. */
  lemma StripQualifiersNoSpace(s: string)
    requires ' ' !in s
    ensures StripQualifiers(s) == Success(s)
  {
  }

  /**
   * The documented example keeps its qualifiers: the punctuation split is discarded, so
   * "package.subpackage.class:var" is returned whole rather than as "var".
   */
  lemma StripQualifiersKeepsPunctuation()
    ensures StripQualifiers("package.subpackage.class:var") == Success("package.subpackage.class:var")
  {
    StripQualifiersNoSpace("package.subpackage.class:var");
  }
}

/**
 * The few string operations of the .NET base library that the settings
 * codecs and the view models rely on: splitting with empty entries removed,
 * joining, ordinal substring search and the white-space class.
 */
module Text {

  /** No character of `s` is one of `cs`. */
  predicate NoneIn(s: string, cs: set<char>) {
    forall i :: 0 <= i < |s| ==> s[i] !in cs
  }

  /**
   * The characters `char.IsWhiteSpace` and the regular-expression class `\s`
   * accept: the control characters TAB to CR, NEL, and the Unicode space,
   * line and paragraph separators.
   */
  const WhiteSpace: set<char> := {
    '\U{0009}', '\U{000A}', '\U{000B}', '\U{000C}', '\U{000D}', '\U{0085}',
    '\U{0020}', '\U{00A0}', '\U{1680}', '\U{2000}', '\U{2001}', '\U{2002}',
    '\U{2003}', '\U{2004}', '\U{2005}', '\U{2006}', '\U{2007}', '\U{2008}',
    '\U{2009}', '\U{200A}', '\U{2028}', '\U{2029}', '\U{202F}', '\U{205F}',
    '\U{3000}'
  }

  /** `string.IsNullOrWhiteSpace` on a non-null string. */
  predicate IsBlank(s: string) {
    forall i :: 0 <= i < |s| ==> s[i] in WhiteSpace
  }

  /** The length of the run of non-separators that starts `s`. */
  function TokenLength(s: string, seps: set<char>): (n: nat)
    ensures n <= |s|
    ensures NoneIn(s[..n], seps)
    ensures n < |s| ==> s[n] in seps
  {
    if |s| == 0 || s[0] in seps then 0
    else
      var m := TokenLength(s[1..], seps);
      assert s[..1 + m] == [s[0]] + s[1..][..m];
      1 + m
  }

  /**
   * `Split(separators, RemoveEmptyEntries)`: the maximal runs of
   * non-separators, in order, each a non-empty piece of `s`.
   */
  function Split(s: string, seps: set<char>): (ts: seq<string>)
    ensures forall i :: 0 <= i < |ts| ==> |ts[i]| > 0 && NoneIn(ts[i], seps)
    ensures forall i, j :: 0 <= i < |ts| && 0 <= j < |ts[i]| ==> ts[i][j] in s
    decreases |s|
  {
    if |s| == 0 then []
    else if s[0] in seps then
      var rest := Split(s[1..], seps);
      assert forall c :: c in s[1..] ==> c in s;
      rest
    else
      var n := TokenLength(s, seps);
      var rest := Split(s[n..], seps);
      assert forall c :: c in s[n..] ==> c in s;
      assert forall c :: c in s[..n] ==> c in s;
      [s[..n]] + rest
  }

  /** `string.Join(sep, ts)`. */
  function Join(ts: seq<string>, sep: string): (s: string)
    ensures |ts| == 0 ==> s == ""
    ensures |ts| > 0 ==> |s| >= |ts[0]| && s[..|ts[0]|] == ts[0]
  {
    if |ts| == 0 then ""
    else if |ts| == 1 then ts[0]
    else ts[0] + sep + Join(ts[1..], sep)
  }

  /** Every character of a join comes from a piece or from the separator. */
  lemma {:induction false} JoinChars(ts: seq<string>, sep: string, c: char)
    requires c in Join(ts, sep)
    ensures c in sep || exists i :: 0 <= i < |ts| && c in ts[i]
  {
    if |ts| > 1 {
      var rest := Join(ts[1..], sep);
      assert Join(ts, sep) == ts[0] + sep + rest;
      if c !in ts[0] && c !in sep {
        assert c in rest;
        JoinChars(ts[1..], sep, c);
        var i :| 0 <= i < |ts[1..]| && c in ts[1..][i];
        assert c in ts[i + 1];
      }
    }
  }

  /** The leading run stops at or before any separator. */
  lemma {:induction false} TokenLengthAtMost(s: string, seps: set<char>, k: nat)
    requires k < |s| && s[k] in seps
    ensures TokenLength(s, seps) <= k
  {
    if s[0] !in seps {
      TokenLengthAtMost(s[1..], seps, k - 1);
    }
  }

  /** The leading run covers every separator-free prefix. */
  lemma {:induction false} TokenLengthAtLeast(s: string, seps: set<char>, k: nat)
    requires k <= |s| && NoneIn(s[..k], seps)
    ensures TokenLength(s, seps) >= k
  {
    if k > 0 {
      assert s[..k][0] == s[0];
      assert s[1..][..k - 1] == s[..k][1..];
      TokenLengthAtLeast(s[1..], seps, k - 1);
    }
  }

  /** A token followed by nothing or by a separator splits off whole. */
  lemma SplitToken(t: string, rest: string, seps: set<char>)
    requires |t| > 0 && NoneIn(t, seps)
    requires |rest| == 0 || rest[0] in seps
    ensures Split(t + rest, seps) == [t] + Split(rest, seps)
  {
    var s := t + rest;
    assert s[..|t|] == t;
    TokenLengthAtLeast(s, seps, |t|);
    if |rest| > 0 {
      TokenLengthAtMost(s, seps, |t|);
    }
    assert s[..|t|] == t && s[|t|..] == rest;
  }

  /** Splitting undoes joining with a separator character, for non-empty pieces free of separators. */
  lemma {:induction false} SplitJoin(ts: seq<string>, seps: set<char>, c: char)
    requires c in seps
    requires forall i :: 0 <= i < |ts| ==> |ts[i]| > 0 && NoneIn(ts[i], seps)
    ensures Split(Join(ts, [c]), seps) == ts
  {
    if |ts| == 1 {
      SplitToken(ts[0], "", seps);
      assert ts[0] + "" == ts[0];
    } else if |ts| > 1 {
      var rest := Join(ts[1..], [c]);
      calc {
        Split(Join(ts, [c]), seps);
        == { JoinCons(ts, [c]); }
        Split(ts[0] + ([c] + rest), seps);
        == { SplitToken(ts[0], [c] + rest, seps); }
        [ts[0]] + Split([c] + rest, seps);
        == { SplitSeparator(c, rest, seps); }
        [ts[0]] + Split(rest, seps);
        == { SplitJoin(ts[1..], seps, c); }
        [ts[0]] + ts[1..];
      }
      assert [ts[0]] + ts[1..] == ts;
    }
  }

  /** A join of two or more pieces is the first piece, the separator, and the join of the rest. */
  lemma JoinCons(ts: seq<string>, sep: string)
    requires |ts| > 1
    ensures Join(ts, sep) == ts[0] + (sep + Join(ts[1..], sep))
  {
    assert ts[0] + sep + Join(ts[1..], sep) == ts[0] + (sep + Join(ts[1..], sep));
  }

  /** A leading separator adds no piece. */
  lemma SplitSeparator(c: char, rest: string, seps: set<char>)
    requires c in seps
    ensures Split([c] + rest, seps) == Split(rest, seps)
  {
    assert ([c] + rest)[1..] == rest;
  }

  /** `needle` occurs in `hay` at position `i`. */
  predicate OccursAt(hay: string, needle: string, i: int) {
    0 <= i && i + |needle| <= |hay| && hay[i..i + |needle|] == needle
  }

  /** Ordinal `string.Contains`: some position of `hay` starts a copy of `needle`. */
  function Contains(hay: string, needle: string): (r: bool)
    ensures r <==> exists i :: OccursAt(hay, needle, i)
    decreases |hay|
  {
    if |needle| > |hay| then false
    else if hay[..|needle|] == needle then
      assert OccursAt(hay, needle, 0);
      true
    else
      var r := Contains(hay[1..], needle);
      assert forall i :: OccursAt(hay[1..], needle, i) <==> OccursAt(hay, needle, i + 1) by {
        forall i ensures OccursAt(hay[1..], needle, i) <==> OccursAt(hay, needle, i + 1) {
          if 0 <= i && i + |needle| <= |hay[1..]| {
            assert hay[1..][i..i + |needle|] == hay[i + 1..i + 1 + |needle|];
          }
        }
      }
      assert !OccursAt(hay, needle, 0);
      assert (exists i :: OccursAt(hay, needle, i)) ==> exists i :: OccursAt(hay[1..], needle, i) by {
        if exists i :: OccursAt(hay, needle, i) {
          var i :| OccursAt(hay, needle, i);
          assert i != 0;
          assert OccursAt(hay[1..], needle, i - 1);
        }
      }
      r
  }
}

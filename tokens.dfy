/** Python 2 `str.split()` with no separator: the maximal runs of
    non-whitespace characters of a line, in order. */
module Tokens {

  /** ASCII whitespace as Python 2 byte strings know it: space, and tab,
      line feed, vertical tab, form feed and carriage return (9 to 13). */
  predicate IsSpace(c: char) {
    c == ' ' || '\t' <= c <= '\r'
  }

  /** A field `split()` can return: non-empty and free of whitespace. */
  predicate IsWord(w: string) {
    w != [] && forall k :: 0 <= k < |w| ==> !IsSpace(w[k])
  }

  /** A run of whitespace only (possibly empty). */
  predicate IsBlank(b: string) {
    forall k :: 0 <= k < |b| ==> IsSpace(b[k])
  }

  /** Length of the leading run of non-whitespace characters. */
  function WordLength(s: string): (n: nat)
    ensures n <= |s|
    ensures forall k :: 0 <= k < n ==> !IsSpace(s[k])
    ensures n < |s| ==> IsSpace(s[n])
  {
    if s == [] || IsSpace(s[0]) then 0 else 1 + WordLength(s[1..])
  }

  /** `s.split()`: every field is a word, and the fields come in the order
      they stand in `s`. */
  function Split(s: string): (fields: seq<string>)
    ensures forall i :: 0 <= i < |fields| ==> IsWord(fields[i])
    decreases |s|
  {
    if s == [] then []
    else if IsSpace(s[0]) then Split(s[1..])
    else
      var n := WordLength(s);
      [s[..n]] + Split(s[n..])
  }

  /** Whitespace that can stand between two fields: non-empty and blank. */
  predicate IsGap(g: string) {
    g != [] && IsBlank(g)
  }

  /** The words `ws` written out with `gaps[i]` between `ws[i]` and
      `ws[i + 1]`; every gap may differ from the others. */
  function Join(ws: seq<string>, gaps: seq<string>): string
    requires ws != [] ==> |gaps| == |ws| - 1
    decreases |ws|
  {
    if ws == [] then []
    else if |ws| == 1 then ws[0]
    else ws[0] + gaps[0] + Join(ws[1..], gaps[1..])
  }

  /** Leading whitespace contributes no field. */
  lemma {:induction false} SplitSkipsBlank(b: string, s: string)
    requires IsBlank(b)
    ensures Split(b + s) == Split(s)
    decreases |b|
  {
    if b == [] {
      assert b + s == s;
    } else {
      assert (b + s)[0] == b[0];
      assert (b + s)[1..] == b[1..] + s;
      SplitSkipsBlank(b[1..], s);
    }
  }

  /** A word followed by whitespace (or by nothing) is one field. */
  lemma SplitWord(w: string, s: string)
    requires IsWord(w)
    requires s == [] || IsSpace(s[0])
    ensures Split(w + s) == [w] + Split(s)
  {
    var n := WordLength(w + s);
    assert forall k :: 0 <= k < |w| ==> (w + s)[k] == w[k];
    assert s != [] ==> (w + s)[|w|] == s[0];
    assert n == |w|;
    assert (w + s)[..n] == w;
    assert (w + s)[n..] == s;
  }

  /** `split()` recovers the words of a line written with any non-empty
      whitespace in each gap between them and any whitespace around them:
      it inverts `Join` on words. */
  lemma {:induction false} SplitJoin(lead: string, ws: seq<string>, gaps: seq<string>, trail: string)
    requires IsBlank(lead) && IsBlank(trail)
    requires ws != [] ==> |gaps| == |ws| - 1
    requires forall i :: 0 <= i < |gaps| ==> IsGap(gaps[i])
    requires forall i :: 0 <= i < |ws| ==> IsWord(ws[i])
    ensures Split(lead + Join(ws, gaps) + trail) == ws
  {
    assert lead + Join(ws, gaps) + trail == lead + (Join(ws, gaps) + trail);
    SplitSkipsBlank(lead, Join(ws, gaps) + trail);
    SplitJoinTrail(ws, gaps, trail);
  }

  lemma {:induction false} SplitJoinTrail(ws: seq<string>, gaps: seq<string>, trail: string)
    requires IsBlank(trail)
    requires ws != [] ==> |gaps| == |ws| - 1
    requires forall i :: 0 <= i < |gaps| ==> IsGap(gaps[i])
    requires forall i :: 0 <= i < |ws| ==> IsWord(ws[i])
    ensures Split(Join(ws, gaps) + trail) == ws
    decreases |ws|
  {
    if ws == [] {
      SplitSkipsBlank(trail, []);
      assert Join(ws, gaps) + trail == trail + [];
    } else if |ws| == 1 {
      SplitWord(ws[0], trail);
      SplitSkipsBlank(trail, []);
      assert trail + [] == trail;
    } else {
      var rest := Join(ws[1..], gaps[1..]) + trail;
      assert Join(ws, gaps) + trail == ws[0] + (gaps[0] + rest);
      assert IsGap(gaps[0]);
      SplitWord(ws[0], gaps[0] + rest);
      SplitSkipsBlank(gaps[0], rest);
      SplitJoinTrail(ws[1..], gaps[1..], trail);
      assert [ws[0]] + ws[1..] == ws;
    }
  }
}

/** The price scanner of the site A extractor:
    `body_txt.match(/\$\d+[\d\.]+/g)`.

    At a `$` the regular expression needs one digit (`\d+`) and then at
    least one more digit or point (`[\d\.]+`). Both parts are greedy and
    backtrack, so a match at a `$` exists exactly when the maximal run of
    digits and points after it starts with a digit and is at least two
    characters long, and the match is then the `$` and that whole run. With
    the `g` flag the search restarts at the end of each match, or one
    character further after a failed attempt, so matches come in text order
    and never overlap. */
module DollarScan {
  import opened Js

  predicate IsRunChar(c: char) { IsDigit(c) || c == '.' }

  /** The first index at or after `j` whose character is not a digit or a
      point (or the end of `s`). */
  function RunEnd(s: string, j: nat): (e: nat)
    requires j <= |s|
    ensures j <= e <= |s|
    decreases |s| - j
  {
    if j < |s| && IsRunChar(s[j]) then RunEnd(s, j + 1) else j
  }

  /** `RunEnd` ends the maximal run: everything from `j` up to it is a
      digit or a point, and the character at it is not. */
  lemma {:induction false} RunEndSpec(s: string, j: nat)
    requires j <= |s|
    ensures forall k :: j <= k < RunEnd(s, j) ==> IsRunChar(s[k])
    ensures RunEnd(s, j) < |s| ==> !IsRunChar(s[RunEnd(s, j)])
    decreases |s| - j
  {
    if j < |s| && IsRunChar(s[j]) {
      RunEndSpec(s, j + 1);
    }
  }

  /** The regular expression matches at index `i`. */
  predicate MatchesAt(s: string, i: nat) {
    i + 1 < |s| && s[i] == '$' && IsDigit(s[i + 1]) && RunEnd(s, i + 1) >= i + 3
  }

  /** A match: the characters `s[start..end]`. */
  datatype Span = Span(start: nat, end: nat)

  /** The global search from index `i` on. */
  function ScanFrom(s: string, i: nat): (spans: seq<Span>)
    requires i <= |s|
    decreases |s| - i
  {
    if i == |s| then []
    else if MatchesAt(s, i) then [Span(i, RunEnd(s, i + 1))] + ScanFrom(s, RunEnd(s, i + 1))
    else ScanFrom(s, i + 1)
  }

  /** The matched strings, in text order (`[]` where JavaScript gives
      `null`): the text of every span of the global search. */
  function Matches(s: string): (r: seq<string>)
    ensures |r| == |ScanFrom(s, 0)|
  {
    var spans := ScanFrom(s, 0);
    ScanFromSound(s, 0);
    seq(|spans|, k requires 0 <= k < |spans| => s[spans[k].start..spans[k].end])
  }

  /** Every matched string is a `$`, a digit, and at least one more digit
      or point, and nothing else. */
  lemma MatchesShape(s: string)
    ensures forall k :: 0 <= k < |Matches(s)| ==>
      |Matches(s)[k]| >= 3 && Matches(s)[k][0] == '$' && IsDigit(Matches(s)[k][1])
      && forall m :: 1 <= m < |Matches(s)[k]| ==> IsRunChar(Matches(s)[k][m])
  {
    var spans := ScanFrom(s, 0);
    var r := Matches(s);
    ScanFromSound(s, 0);
    forall k | 0 <= k < |r|
      ensures |r[k]| >= 3 && r[k][0] == '$' && IsDigit(r[k][1])
      ensures forall m :: 1 <= m < |r[k]| ==> IsRunChar(r[k][m])
    {
      var a := spans[k].start;
      RunEndSpec(s, a + 1);
      assert r[k] == s[a..spans[k].end];
      forall m | 1 <= m < |r[k]| ensures IsRunChar(r[k][m]) {
        assert r[k][m] == s[a + m];
        assert a + 1 <= a + m < RunEnd(s, a + 1);
      }
    }
  }

  /** Every span lies in `s[i..]` and is a match that runs to the end of
      its digit-and-point run. */
  lemma {:induction false} ScanFromSound(s: string, i: nat)
    requires i <= |s|
    ensures forall k :: 0 <= k < |ScanFrom(s, i)| ==>
      && i <= ScanFrom(s, i)[k].start
      && MatchesAt(s, ScanFrom(s, i)[k].start) && ScanFrom(s, i)[k].end == RunEnd(s, ScanFrom(s, i)[k].start + 1)
    decreases |s| - i
  {
    if i < |s| {
      var spans := ScanFrom(s, i);
      if MatchesAt(s, i) {
        var e := RunEnd(s, i + 1);
        var rest := ScanFrom(s, e);
        ScanFromSound(s, e);
        assert spans == [Span(i, e)] + rest;
        forall k | 0 <= k < |spans|
          ensures i <= spans[k].start && MatchesAt(s, spans[k].start) && spans[k].end == RunEnd(s, spans[k].start + 1)
        {
          if k > 0 { assert spans[k] == rest[k - 1]; }
        }
      } else {
        ScanFromSound(s, i + 1);
      }
    }
  }

  /** The spans are in text order and do not overlap. */
  lemma {:induction false} ScanFromOrdered(s: string, i: nat)
    requires i <= |s|
    ensures forall a, b :: 0 <= a < b < |ScanFrom(s, i)| ==> ScanFrom(s, i)[a].end <= ScanFrom(s, i)[b].start
    decreases |s| - i
  {
    if i < |s| {
      var spans := ScanFrom(s, i);
      if MatchesAt(s, i) {
        var e := RunEnd(s, i + 1);
        var rest := ScanFrom(s, e);
        ScanFromOrdered(s, e);
        ScanFromSound(s, e);
        assert spans == [Span(i, e)] + rest;
        forall a, b | 0 <= a < b < |spans| ensures spans[a].end <= spans[b].start {
          assert spans[b] == rest[b - 1];
          assert e <= rest[b - 1].start;
          if a > 0 { assert spans[a] == rest[a - 1]; }
        }
      } else {
        ScanFromOrdered(s, i + 1);
      }
    }
  }

  /** Nothing is missed: from `i` on, every index where the regular
      expression matches starts a span. */
  lemma {:induction false} ScanFromFinds(s: string, i: nat, p: nat)
    requires i <= p < |s| && MatchesAt(s, p)
    ensures exists k :: 0 <= k < |ScanFrom(s, i)| && ScanFrom(s, i)[k].start == p
    decreases |s| - i
  {
    var spans := ScanFrom(s, i);
    if MatchesAt(s, i) {
      var e := RunEnd(s, i + 1);
      var rest := ScanFrom(s, e);
      assert spans == [Span(i, e)] + rest;
      if p == i {
        assert spans[0].start == p;
      } else {
        RunEndSpec(s, i + 1);
        assert e <= p by {
          if p < e { assert false; }
        }
        ScanFromFinds(s, e, p);
        var k :| 0 <= k < |rest| && rest[k].start == p;
        assert spans[k + 1].start == p;
      }
    } else {
      assert spans == ScanFrom(s, i + 1);
      ScanFromFinds(s, i + 1, p);
    }
  }

  /** From `i` on, an index starts a span exactly when the regular
      expression matches there. */
  lemma ScanFromComplete(s: string, i: nat, p: nat)
    requires i <= p < |s|
    ensures MatchesAt(s, p) <==> exists k :: 0 <= k < |ScanFrom(s, i)| && ScanFrom(s, i)[k].start == p
  {
    ScanFromSound(s, i);
    if MatchesAt(s, p) {
      ScanFromFinds(s, i, p);
    }
  }

  /** Moves every span `n` characters to the right. */
  function Shift(spans: seq<Span>, n: nat): (r: seq<Span>)
    ensures |r| == |spans|
    ensures forall k :: 0 <= k < |r| ==> r[k] == Span(spans[k].start + n, spans[k].end + n)
  {
    seq(|spans|, k requires 0 <= k < |spans| => Span(spans[k].start + n, spans[k].end + n))
  }

  lemma ShiftCons(x: Span, rest: seq<Span>, n: nat)
    ensures Shift([x] + rest, n) == [Span(x.start + n, x.end + n)] + Shift(rest, n)
  {
    var a := Shift([x] + rest, n);
    var b := [Span(x.start + n, x.end + n)] + Shift(rest, n);
    assert |a| == |b|;
    forall k | 0 <= k < |a| ensures a[k] == b[k] {
      if k > 0 { assert ([x] + rest)[k] == rest[k - 1]; }
    }
  }

  /** A run is measured on the characters from `j` on only. */
  lemma {:induction false} RunEndSuffix(p: string, q: string, j: nat)
    requires j <= |q|
    ensures RunEnd(p + q, |p| + j) == |p| + RunEnd(q, j)
    decreases |q| - j
  {
    if j < |q| {
      assert (p + q)[|p| + j] == q[j];
      RunEndSuffix(p, q, j + 1);
    }
  }

  /** Whether the expression matches at an index does not depend on the
      text before it. */
  lemma MatchesAtSuffix(p: string, q: string, j: nat)
    requires j < |q|
    ensures MatchesAt(p + q, |p| + j) == MatchesAt(q, j)
  {
    var s := p + q;
    assert s[|p| + j] == q[j];
    if j + 1 < |q| {
      assert s[|p| + j + 1] == q[j + 1];
      RunEndSuffix(p, q, j + 1);
    }
  }

  /** The search from an index does not look at the text before it. */
  lemma {:induction false} ScanFromSuffix(p: string, q: string, j: nat)
    requires j <= |q|
    ensures ScanFrom(p + q, |p| + j) == Shift(ScanFrom(q, j), |p|)
    decreases |q| - j, 1
  {
    if j < |q| {
      MatchesAtSuffix(p, q, j);
      if MatchesAt(q, j) {
        ScanFromSuffixAtMatch(p, q, j);
      } else {
        ScanFromSuffix(p, q, j + 1);
        assert ScanFrom(p + q, |p| + j) == ScanFrom(p + q, |p| + j + 1);
      }
    }
  }

  /** The step of `ScanFromSuffix` at a match. */
  lemma {:induction false} ScanFromSuffixAtMatch(p: string, q: string, j: nat)
    requires j < |q| && MatchesAt(q, j) && MatchesAt(p + q, |p| + j)
    ensures ScanFrom(p + q, |p| + j) == Shift(ScanFrom(q, j), |p|)
    decreases |q| - j, 0
  {
    RunEndSuffix(p, q, j + 1);
    var e := RunEnd(q, j + 1);
    ScanFromSuffix(p, q, e);
    ShiftCons(Span(j, e), ScanFrom(q, e), |p|);
    calc {
      ScanFrom(p + q, |p| + j);
      [Span(|p| + j, |p| + e)] + ScanFrom(p + q, |p| + e);
      [Span(|p| + j, |p| + e)] + Shift(ScanFrom(q, e), |p|);
      Shift([Span(j, e)] + ScanFrom(q, e), |p|);
      Shift(ScanFrom(q, j), |p|);
    }
  }

  /** A maximal run ends where the first non-run character stands. */
  lemma {:induction false} RunEndAt(s: string, j: nat, e: nat)
    requires j <= e <= |s|
    requires forall k :: j <= k < e ==> IsRunChar(s[k])
    requires e < |s| ==> !IsRunChar(s[e])
    ensures RunEnd(s, j) == e
    decreases e - j
  {
    if j < e {
      RunEndAt(s, j + 1, e);
    }
  }

  /** A price token: a `$`, a digit, and at least one more digit or point. */
  predicate IsPriceToken(t: string) {
    |t| >= 3 && t[0] == '$' && IsDigit(t[1]) && forall k :: 1 <= k < |t| ==> IsRunChar(t[k])
  }

  /** The spans of a price followed by a space and more text. */
  lemma ScanPriceThenSpace(t: string, q: string)
    requires IsPriceToken(t)
    ensures ScanFrom(t + " " + q, 0) == [Span(0, |t|)] + Shift(ScanFrom(q, 0), |t| + 1)
  {
    var p := t + " ";
    var s := p + q;
    assert s == t + " " + q;
    assert s[0] == '$' && s[1] == t[1];
    assert s[|t|] == ' ';
    RunEndAt(s, 1, |t|);
    assert MatchesAt(s, 0);
    assert !MatchesAt(s, |t|);
    ScanFromSuffix(p, q, 0);
    assert ScanFrom(s, |t|) == ScanFrom(s, |p| + 0);
  }

  /** Each matched string is the text of its span. */
  lemma MatchesText(s: string, k: nat)
    requires k < |ScanFrom(s, 0)|
    ensures ScanFrom(s, 0)[k].start <= ScanFrom(s, 0)[k].end <= |s|
    ensures Matches(s)[k] == s[ScanFrom(s, 0)[k].start..ScanFrom(s, 0)[k].end]
  {
    ScanFromSound(s, 0);
    RunEndSpec(s, ScanFrom(s, 0)[k].start + 1);
  }

  /** One element of `MatchesPriceThenSpace`. */
  lemma MatchesPriceThenSpaceAt(t: string, q: string, k: nat)
    requires IsPriceToken(t)
    requires k <= |Matches(q)|
    ensures k < |Matches(t + " " + q)|
    ensures Matches(t + " " + q)[k] == ([t] + Matches(q))[k]
  {
    var p := t + " ";
    var s := p + q;
    assert s == t + " " + q;
    ScanPriceThenSpace(t, q);
    MatchesText(s, k);
    if k == 0 {
      assert s[0..|t|] == t;
    } else {
      MatchesText(q, k - 1);
      var sp := ScanFrom(q, 0)[k - 1];
      assert ScanFrom(s, 0)[k] == Span(sp.start + |p|, sp.end + |p|);
      assert s[sp.start + |p|..sp.end + |p|] == q[sp.start..sp.end];
    }
  }

  /** A price followed by a space: the scan yields that price and then
      whatever it finds in the rest of the text. */
  lemma MatchesPriceThenSpace(t: string, q: string)
    requires IsPriceToken(t)
    ensures Matches(t + " " + q) == [t] + Matches(q)
  {
    ScanPriceThenSpace(t, q);
    forall k | 0 <= k <= |Matches(q)|
      ensures Matches(t + " " + q)[k] == ([t] + Matches(q))[k]
    {
      MatchesPriceThenSpaceAt(t, q, k);
    }
  }

  /** Price tokens separated by single spaces. */
  function SpaceJoined(tokens: seq<string>): (s: string)
    ensures tokens != [] ==> |s| >= |tokens[0]|
  {
    if |tokens| == 0 then ""
    else if |tokens| == 1 then tokens[0]
    else tokens[0] + " " + SpaceJoined(tokens[1..])
  }

  /** A lone price token is one match. */
  lemma MatchesOfToken(t: string)
    requires IsPriceToken(t)
    ensures Matches(t) == [t]
  {
    RunEndAt(t, 1, |t|);
    assert MatchesAt(t, 0);
    assert ScanFrom(t, 0) == [Span(0, |t|)] + ScanFrom(t, |t|);
    MatchesText(t, 0);
    assert t[0..|t|] == t;
  }

  /** The scanner recovers exactly the tokens of a text made of price
      tokens separated by spaces, in order. */
  lemma {:induction false} MatchesOfSpaceJoined(tokens: seq<string>)
    requires forall k :: 0 <= k < |tokens| ==> IsPriceToken(tokens[k])
    ensures Matches(SpaceJoined(tokens)) == tokens
  {
    if |tokens| == 0 {
      assert ScanFrom("", 0) == [];
    } else if |tokens| == 1 {
      MatchesOfToken(tokens[0]);
    } else {
      MatchesOfSpaceJoined(tokens[1..]);
      MatchesPriceThenSpace(tokens[0], SpaceJoined(tokens[1..]));
      assert [tokens[0]] + tokens[1..] == tokens;
    }
  }
}

/** The regular expressions of the two text passes all have the shape
    `kw\s+"([^"]*)"`: a keyword, a run of white space, and a double-quoted
    value with no quote inside. This module is a scanner for that shape
    with the semantics of Python's `re.findall` and `re.sub`: the leftmost
    match wins, the search resumes after it, and positions where no match
    starts are copied. `\s` is `Text.IsSpace`. */
module Scanner {
  import opened Wrappers
  import opened Text

  /** One match: the white space after the keyword and the quoted value. */
  datatype Match = Match(gap: string, value: string)

  /** What the pattern demands of a match: some white space, and a value
      without a quote. */
  predicate IsHit(m: Match) {
    |m.gap| > 0 && (forall i | 0 <= i < |m.gap| :: IsSpace(m.gap[i])) && '"' !in m.value
  }

  /** The text a match covers. */
  function HitText(kw: string, m: Match): string {
    kw + m.gap + "\"" + m.value + "\""
  }

  /** `\s+"([^"]*)"` at the start of `r`, read one white-space character
      at a time: `\s+` takes the whole run of white space (a quote is not
      white space, so giving some back cannot help), and `[^"]*` runs up
      to the next quote, which closes the value. */
  function Quoted(r: string): (m: Option<Match>)
    ensures m.Some? ==> |m.value.gap| + |m.value.value| + 2 <= |r|
    decreases |r|
  {
    if |r| < 2 || !IsSpace(r[0]) then None
    else if r[1] == '"' then
      match IndexOf(r[2..], '"')
      case None => None
      case Some(j) => Some(Match(r[..1], r[2..][..j]))
    else
      match Quoted(r[1..])
      case None => None
      case Some(m) => Some(Match(r[..1] + m.gap, m.value))
  }

  /** What `Quoted` reads is white space, an opening quote, a value with
      no quote, and the closing quote. */
  lemma {:induction false} QuotedSound(r: string)
    ensures Quoted(r).Some? ==> IsHit(Quoted(r).value) && StartsWith(r, QuotedText(Quoted(r).value))
    decreases |r|
  {
    if Quoted(r).Some? {
      if r[1] == '"' {
        QuotedOpenSound(r, IndexOf(r[2..], '"').value);
      } else {
        QuotedSound(r[1..]);
        QuotedStepSound(r, Quoted(r[1..]).value);
      }
    }
  }

  /** The white space is one character and the value runs to quote `j`. */
  lemma QuotedOpenSound(r: string, j: nat)
    requires |r| >= 2 && IsSpace(r[0]) && r[1] == '"'
    requires j < |r[2..]| && r[2..][j] == '"' && '"' !in r[2..][..j]
    ensures IsHit(Match(r[..1], r[2..][..j])) && StartsWith(r, QuotedText(Match(r[..1], r[2..][..j])))
  {
    assert r[..j + 3] == r[..1] + "\"" + r[2..][..j] + "\"";
  }

  /** One more white-space character in front of a match read after it. */
  lemma QuotedStepSound(r: string, m: Match)
    requires |r| >= 2 && IsSpace(r[0])
    requires IsHit(m) && StartsWith(r[1..], QuotedText(m))
    ensures IsHit(Match(r[..1] + m.gap, m.value)) && StartsWith(r, QuotedText(Match(r[..1] + m.gap, m.value)))
  {
    var g := r[..1] + m.gap;
    var n := |QuotedText(m)|;
    assert r[..n + 1] == r[..1] + r[1..][..n];
    assert forall i | 1 <= i < |g| :: g[i] == m.gap[i - 1];
    AppendAssoc(r[..1], m.gap + "\"" + m.value, "\"");
    assert QuotedText(Match(g, m.value)) == r[..1] + QuotedText(m);
  }

  /** The text of a match after the keyword. */
  function QuotedText(m: Match): string {
    m.gap + "\"" + m.value + "\""
  }

  /** The pattern tried at the start of `s`. */
  function MatchAt(s: string, kw: string): (r: Option<Match>)
    ensures r.Some? ==> |HitText(kw, r.value)| <= |s|
  {
    if StartsWith(s, kw) then Quoted(s[|kw|..]) else None
  }

  lemma MatchAtSound(s: string, kw: string)
    ensures MatchAt(s, kw).Some? ==> IsHit(MatchAt(s, kw).value) && StartsWith(s, HitText(kw, MatchAt(s, kw).value))
  {
    if MatchAt(s, kw).Some? {
      QuotedSound(s[|kw|..]);
      var m := MatchAt(s, kw).value;
      assert s == kw + s[|kw|..];
      assert HitText(kw, m) == kw + QuotedText(m);
    }
  }

  lemma {:induction false} QuotedOfHit(m: Match, z: string)
    requires IsHit(m)
    ensures Quoted(QuotedText(m) + z) == Some(m)
    decreases |m.gap|
  {
    var r := m.gap + "\"" + m.value + "\"" + z;
    assert r[0] == m.gap[0];
    if |m.gap| == 1 {
      assert r[1] == '"';
      assert r[2..] == m.value + "\"" + z;
      assert r[2..][|m.value|] == '"';
      assert IndexOf(r[2..], '"') == Some(|m.value|);
      assert r[2..][..|m.value|] == m.value;
      assert r[..1] == m.gap;
      assert IsSpace(r[0]) && |r| >= 2;
    } else {
      var m' := Match(m.gap[1..], m.value);
      assert r[1] == m.gap[1];
      assert r[1..] == m'.gap + "\"" + m'.value + "\"" + z;
      QuotedOfHit(m', z);
      assert r[..1] + m'.gap == m.gap;
    }
  }

  /** A text that starts with a match's text matches there, with that very
      match: the pattern reads the same gap and the same value back. */
  lemma MatchOfHit(kw: string, m: Match, z: string)
    requires IsHit(m)
    ensures MatchAt(HitText(kw, m) + z, kw) == Some(m)
  {
    var s := HitText(kw, m) + z;
    assert s[..|kw|] == kw;
    assert s[|kw|..] == m.gap + "\"" + m.value + "\"" + z;
    QuotedOfHit(m, z);
  }

  /** The pattern matches at the start of `s` with `m` exactly when `s`
      starts with the text of a well-formed match `m`. */
  lemma MatchAtIff(s: string, kw: string, m: Match)
    ensures MatchAt(s, kw) == Some(m) <==> IsHit(m) && StartsWith(s, HitText(kw, m))
  {
    MatchAtSound(s, kw);
    if IsHit(m) && StartsWith(s, HitText(kw, m)) {
      var n := |HitText(kw, m)|;
      assert s == HitText(kw, m) + s[n..];
      MatchOfHit(kw, m, s[n..]);
    }
  }

  /** The leftmost position where a match starts, or `|s|`. */
  function NextHit(s: string, kw: string): (q: nat)
    ensures q <= |s|
    ensures forall p | 0 <= p < q :: MatchAt(s[p..], kw).None?
    ensures q < |s| ==> MatchAt(s[q..], kw).Some?
    decreases |s|
  {
    if |s| == 0 || MatchAt(s, kw).Some? then 0
    else
      var q := 1 + NextHit(s[1..], kw);
      assert forall p | 1 <= p <= |s| :: s[1..][p - 1..] == s[p..];
      q
  }

  /** A stretch of text the pattern does not touch, or a match. */
  datatype Piece = Plain(text: string) | Hit(m: Match)

  /** `s` cut into unmatched stretches and leftmost, non-overlapping
      matches, the way `re.sub` and `re.findall` walk it. */
  function Scan(s: string, kw: string): (ps: seq<Piece>)
    decreases |s|
  {
    var q := NextHit(s, kw);
    if q == |s| then [Plain(s)]
    else
      var m := MatchAt(s[q..], kw).value;
      [Plain(s[..q]), Hit(m)] + Scan(s[q + |HitText(kw, m)|..], kw)
  }

  /** The text of a sequence of pieces. */
  function Render(kw: string, ps: seq<Piece>): string {
    if |ps| == 0 then ""
    else
      (match ps[0]
       case Plain(t) => t
       case Hit(m) => HitText(kw, m)) + Render(kw, ps[1..])
  }

  /** The matches among the pieces, in order. */
  function Matches(ps: seq<Piece>): seq<Match> {
    if |ps| == 0 then []
    else if ps[0].Hit? then [ps[0].m] + Matches(ps[1..])
    else Matches(ps[1..])
  }

  /** `re.findall`, keeping the whole match rather than only the value. */
  function Findall(s: string, kw: string): seq<Match> {
    Matches(Scan(s, kw))
  }

  /** The captured values, what `re.findall` returns for a one-group
      pattern. */
  function Values(ms: seq<Match>): (vs: seq<string>)
    ensures |vs| == |ms| && forall i | 0 <= i < |ms| :: vs[i] == ms[i].value
  {
    seq(|ms|, i requires 0 <= i < |ms| => ms[i].value)
  }

  /** Scanning cuts the text without losing or adding anything. */
  lemma {:induction false} RenderScan(s: string, kw: string)
    ensures Render(kw, Scan(s, kw)) == s
    decreases |s|
  {
    var q := NextHit(s, kw);
    if q < |s| {
      var m := MatchAt(s[q..], kw).value;
      var n := |HitText(kw, m)|;
      MatchAtSound(s[q..], kw);
      var rest := s[q + n..];
      RenderScan(rest, kw);
      RenderPlainHit(kw, s[..q], m, Scan(rest, kw));
      Pieces(s, q, n);
    }
  }

  lemma RenderPlainHit(kw: string, t: string, m: Match, ps: seq<Piece>)
    ensures Render(kw, [Plain(t), Hit(m)] + ps) == t + HitText(kw, m) + Render(kw, ps)
  {
    var all := [Plain(t), Hit(m)] + ps;
    assert all[1..] == [Hit(m)] + ps;
    assert all[1..][1..] == ps;
  }

  /** A text is its three consecutive slices. */
  lemma Pieces(s: string, q: nat, n: nat)
    requires q + n <= |s|
    ensures s == s[..q] + s[q..][..n] + s[q + n..]
  {
  }

  lemma NextHitIs(w: string, kw: string, q: nat)
    requires q < |w| && MatchAt(w[q..], kw).Some?
    requires forall p | 0 <= p < q :: MatchAt(w[p..], kw).None?
    ensures NextHit(w, kw) == q
  {
  }

  /** No match starts in `w` before position `k`. */
  predicate MissesBefore(w: string, kw: string, k: nat) {
    forall p | 0 <= p < k && p <= |w| :: MatchAt(w[p..], kw).None?
  }

  /** The scan of a text whose first match is `m`, after `t`. */
  lemma ScanAt(t: string, kw: string, m: Match, z: string)
    requires IsHit(m)
    requires MissesBefore(t + HitText(kw, m) + z, kw, |t|)
    ensures Scan(t + HitText(kw, m) + z, kw) == [Plain(t), Hit(m)] + Scan(z, kw)
  {
    var w := t + HitText(kw, m) + z;
    var q := |t|;
    assert w[q..] == HitText(kw, m) + z;
    MatchOfHit(kw, m, z);
    NextHitIs(w, kw, q);
    assert w[q + |HitText(kw, m)|..] == z;
    assert w[..q] == t;
  }

  lemma FindallAt(t: string, kw: string, m: Match, z: string)
    requires IsHit(m)
    requires MissesBefore(t + HitText(kw, m) + z, kw, |t|)
    ensures Findall(t + HitText(kw, m) + z, kw) == [m] + Findall(z, kw)
  {
    ScanAt(t, kw, m, z);
    var ps := Scan(t + HitText(kw, m) + z, kw);
    MatchesPlainHit(ps, t, m);
    assert ps[2..] == Scan(z, kw);
  }

  lemma MatchesPlainHit(ps: seq<Piece>, t: string, m: Match)
    requires |ps| >= 2 && ps[0] == Plain(t) && ps[1] == Hit(m)
    ensures Matches(ps) == [m] + Matches(ps[2..])
  {
    assert ps[1..][1..] == ps[2..];
  }

  /** A text with a match in it is the stretch before its first match,
      that match, and the rest. */
  lemma FirstHit(s: string, kw: string) returns (t: string, m: Match, rest: string)
    requires NextHit(s, kw) < |s|
    ensures s == t + HitText(kw, m) + rest && |t| == NextHit(s, kw)
    ensures IsHit(m) && MissesBefore(t + HitText(kw, m) + rest, kw, |t|)
    ensures Scan(s, kw) == [Plain(t), Hit(m)] + Scan(rest, kw)
  {
    var q := NextHit(s, kw);
    m := MatchAt(s[q..], kw).value;
    MatchAtSound(s[q..], kw);
    var n := |HitText(kw, m)|;
    t, rest := s[..q], s[q + n..];
    Pieces(s, q, n);
  }

  /** A text with no match in it is one unmatched stretch. */
  lemma ScanNone(w: string, kw: string)
    requires MissesBefore(w, kw, |w|)
    ensures Scan(w, kw) == [Plain(w)]
    ensures Findall(w, kw) == []
  {
    assert NextHit(w, kw) == |w|;
    assert Scan(w, kw) == [Plain(w)];
    assert Matches([Plain(w)]) == Matches([Plain(w)][1..]);
    assert [Plain(w)][1..] == [];
  }

  /** Text in front that no match starts in does not change what is
      found after it. */
  lemma FindallSkip(a: string, b: string, kw: string)
    requires MissesBefore(a + b, kw, |a|)
    ensures Findall(a + b, kw) == Findall(b, kw)
  {
    if NextHit(b, kw) < |b| {
      var t, m, z := FirstHit(b, kw);
      FindallSkipHit(a, t, m, z, kw);
    } else {
      MissesShift(a, b, kw, |b|);
      ScanNone(b, kw);
      ScanNone(a + b, kw);
    }
  }

  lemma FindallSkipHit(a: string, t: string, m: Match, z: string, kw: string)
    requires IsHit(m)
    requires MissesBefore(a + (t + HitText(kw, m) + z), kw, |a|)
    requires MissesBefore(t + HitText(kw, m) + z, kw, |t|)
    ensures Findall(a + (t + HitText(kw, m) + z), kw) == Findall(t + HitText(kw, m) + z, kw)
  {
    var b := t + HitText(kw, m) + z;
    MissesShift(a, b, kw, |t|);
    assert a + b == (a + t) + HitText(kw, m) + z;
    FindallAt(a + t, kw, m, z);
    FindallAt(t, kw, m, z);
  }

  /** Misses in front followed by misses in `b` are misses in `a + b`. */
  lemma MissesShift(a: string, b: string, kw: string, q: nat)
    requires q <= |b|
    requires MissesBefore(a + b, kw, |a|) && MissesBefore(b, kw, q)
    ensures MissesBefore(a + b, kw, |a| + q)
  {
    var w := a + b;
    forall p | |a| <= p < |a| + q ensures MatchAt(w[p..], kw).None? {
      assert w[p..] == b[p - |a|..];
    }
  }

  /** After the keyword, some white space and an opening quote, any later
      quote closes a value: the pattern matches. */
  lemma MatchFromOpening(s: string, kw: string, g: string)
    requires |g| > 0 && forall i | 0 <= i < |g| :: IsSpace(g[i])
    requires StartsWith(s, kw + g + "\"")
    requires '"' in s[|kw| + |g| + 1..]
    ensures MatchAt(s, kw).Some?
  {
    var o := |kw| + |g| + 1;
    var j := IndexOf(s[o..], '"').value;
    var m := Match(g, s[o..][..j]);
    assert s[..o + j + 1] == kw + g + "\"" + m.value + "\"" by {
      assert s[..o] == kw + g + "\"";
      assert s[o..o + j] == m.value;
    }
    MatchAtIff(s, kw, m);
  }

  /** A hit followed by anything starts with the keyword, the white space
      and the opening quote, and a closing quote follows. */
  lemma HitTextOpens(kw: string, m: Match, rest: string)
    ensures StartsWith(kw + m.gap + "\"", kw)
    ensures StartsWith(HitText(kw, m) + rest, kw + m.gap + "\"")
    ensures '"' in (HitText(kw, m) + rest)[|kw + m.gap + "\""|..]
  {
    var pre := kw + m.gap + "\"";
    var x := HitText(kw, m) + rest;
    assert x == pre + (m.value + "\"" + rest);
    assert x[..|pre|] == pre;
    assert x[|pre|..] == m.value + "\"" + rest;
    assert x[|pre|..][|m.value|] == '"';
    assert pre[..|kw|] == kw;
  }

  /** A match that starts where the text still agrees with an old text
      whose next match began with `pre` (the keyword, white space, an
      opening quote) was a match of the old text too: the white space
      cannot run past that quote, and the old text still held a quote
      after it. So a position that found nothing in the old text finds
      nothing in the new one. */
  lemma MissKept(u: string, x: string, y: string, kw: string, pre: string)
    requires |u| > 0
    requires StartsWith(pre, kw) && |pre| > 0 && pre[|pre| - 1] == '"'
    requires StartsWith(x, pre) && StartsWith(y, pre)
    requires '"' in x[|pre|..]
    ensures MatchAt(u + y, kw).Some? ==> MatchAt(u + x, kw).Some?
  {
    var L := |u| + |pre|;
    CommonFront(u, x, y, pre);
    MissKeptAt(u + x, u + y, kw, L);
  }

  /** Two texts that agree up to a quote at `L - 1`, past the keyword,
      where the first has a quote after `L` too. */
  lemma MissKeptAt(s1: string, s2: string, kw: string, L: int)
    requires |kw| < L <= |s1| && L <= |s2|
    requires s1[..L] == s2[..L] && s2[L - 1] == '"'
    requires '"' in s1[L..]
    ensures MatchAt(s2, kw).Some? ==> MatchAt(s1, kw).Some?
  {
    if MatchAt(s2, kw).Some? {
      var m := MatchAt(s2, kw).value;
      MatchAtSound(s2, kw);
      OpeningBefore(s2, kw, m, L);
      OpeningKept(s1, s2, kw, m.gap, L);
      MatchFromOpening(s1, kw, m.gap);
    }
  }

  /** Two texts that share `u` and then `pre`, which ends with a quote. */
  lemma CommonFront(u: string, x: string, y: string, pre: string)
    requires |pre| > 0 && pre[|pre| - 1] == '"'
    requires StartsWith(x, pre) && StartsWith(y, pre)
    ensures var L := |u| + |pre|;
      && (u + x)[..L] == (u + y)[..L] && (u + y)[L - 1] == '"' && (u + x)[L..] == x[|pre|..]
  {
    var L := |u| + |pre|;
    assert (u + x)[..L] == u + x[..|pre|];
    assert (u + y)[..L] == u + y[..|pre|];
    assert (u + y)[L - 1] == y[|pre| - 1] == pre[|pre| - 1];
  }

  /** A hit whose text has a quote at `L - 1`, past the keyword, opens
      its value no later than there: its white space holds no quote. */
  lemma OpeningBefore(s: string, kw: string, m: Match, L: int)
    requires IsHit(m) && StartsWith(s, HitText(kw, m))
    requires |kw| < L <= |s| && s[L - 1] == '"'
    ensures |kw| + |m.gap| + 1 <= L
    ensures StartsWith(s, kw + m.gap + "\"") && forall i | 0 <= i < |m.gap| :: IsSpace(m.gap[i])
  {
    var h := HitText(kw, m);
    var open := kw + m.gap + "\"";
    assert s[..|h|] == h;
    forall i | |kw| <= i < |kw| + |m.gap| ensures IsSpace(s[i]) {
      assert s[i] == h[i] == m.gap[i - |kw|];
    }
    assert h == open + (m.value + "\"");
    assert s[..|open|] == h[..|open|] == open;
  }

  /** A text that agrees with `s2` up to `L` keeps its opening, and finds
      a closing quote when it has one after `L`. */
  lemma OpeningKept(s1: string, s2: string, kw: string, g: string, L: int)
    requires |kw| + |g| + 1 <= L <= |s1| && L <= |s2|
    requires s1[..L] == s2[..L]
    requires StartsWith(s2, kw + g + "\"")
    requires '"' in s1[L..]
    ensures StartsWith(s1, kw + g + "\"")
    ensures '"' in s1[|kw| + |g| + 1..]
  {
    var o := |kw| + |g| + 1;
    assert s1[..o] == s1[..L][..o];
    assert s2[..o] == s2[..L][..o];
    var j :| 0 <= j < |s1[L..]| && s1[L..][j] == '"';
    assert s1[o..][L - o + j] == '"';
  }

  /** The keyword, the white space and the opening quote cannot reach
      a character that is none of these. */
  lemma OpeningBeforeForeign(u: string, y: string, kw: string, g: string)
    requires |y| > 0 && !IsSpace(y[0]) && y[0] != '"' && y[0] !in kw
    requires forall i | 0 <= i < |g| :: IsSpace(g[i])
    requires StartsWith(u + y, kw + g + "\"")
    ensures |kw| + |g| < |u|
  {
    var h := kw + g + "\"";
    var o := |kw| + |g|;
    var w := u + y;
    assert w[..o + 1] == h;
    assert forall i | 0 <= i <= o :: w[i] != y[0] by {
      forall i | 0 <= i <= o ensures w[i] != y[0] {
        assert w[i] == h[i];
        if i < |kw| {
          assert h[i] == kw[i];
        } else if i < o {
          assert h[i] == g[i - |kw|];
        }
      }
    }
    assert w[|u|] == y[0];
  }

  /** A match that starts in `u` when `u` is followed by text beginning
      with a character that is neither white space, nor a quote, nor in
      the keyword, lies in `u` up to its opening quote; then any old text
      after `u` holding a quote gave a match as well. */
  lemma MissKeptForeign(u: string, x: string, y: string, kw: string)
    requires |u| > 0 && |y| > 0
    requires !IsSpace(y[0]) && y[0] != '"' && y[0] !in kw
    requires '"' in x
    ensures MatchAt(u + y, kw).Some? ==> MatchAt(u + x, kw).Some?
  {
    var s1, s2 := u + x, u + y;
    if MatchAt(s2, kw).Some? {
      var m := MatchAt(s2, kw).value;
      MatchAtSound(s2, kw);
      var o := |kw| + |m.gap|;
      var h := kw + m.gap + "\"";
      assert s2[..o + 1] == h by {
        assert s2[..|HitText(kw, m)|] == HitText(kw, m);
      }
      OpeningBeforeForeign(u, y, kw, m.gap);
      assert s1[..o + 1] == u[..o + 1] == s2[..o + 1];
      assert s1[o + 1..] == u[o + 1..] + x;
      MatchFromOpening(s1, kw, m.gap);
    }
  }

  /** `MissKept` at every position of `t`. */
  lemma MissesKept(t: string, x: string, y: string, kw: string, pre: string)
    requires StartsWith(pre, kw) && |pre| > 0 && pre[|pre| - 1] == '"'
    requires StartsWith(x, pre) && StartsWith(y, pre)
    requires '"' in x[|pre|..]
    requires MissesBefore(t + x, kw, |t|)
    ensures MissesBefore(t + y, kw, |t|)
  {
    forall p | 0 <= p < |t| ensures MatchAt((t + y)[p..], kw).None? {
      assert (t + x)[p..] == t[p..] + x;
      assert (t + y)[p..] == t[p..] + y;
      MissKept(t[p..], x, y, kw, pre);
    }
  }

  /** `MissKeptForeign` at every position of `t`. */
  lemma MissesKeptForeign(t: string, x: string, y: string, kw: string)
    requires |y| > 0 && !IsSpace(y[0]) && y[0] != '"' && y[0] !in kw
    requires '"' in x
    requires MissesBefore(t + x, kw, |t|)
    ensures MissesBefore(t + y, kw, |t|)
  {
    forall p | 0 <= p < |t| ensures MatchAt((t + y)[p..], kw).None? {
      assert (t + x)[p..] == t[p..] + x;
      assert (t + y)[p..] == t[p..] + y;
      MissKeptForeign(t[p..], x, y, kw);
    }
  }
}

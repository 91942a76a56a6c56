/** `fix_backslashes_in_turtle`: every backslash inside the quoted value
    after `dc:alternative` is doubled, everything else is copied, and the
    pass reports how many values it found, how many backslashes they held
    and how many `\\` pairs the values hold afterwards. Reading and
    writing the file and the console messages are not modelled. */
module Backslashes {
  import opened Wrappers
  import opened Text
  import opened Scanner
  import opened TurtleEscape

  const Keyword: string := "dc:alternative"

  /** `value.replace('\\', '\\\\')`. */
  function Double(v: string): string {
    ReplaceChar(v, '\\', "\\\\")
  }

  /** Doubling introduces no quote. */
  lemma {:induction false} DoubleNoQuote(v: string)
    requires '"' !in v
    ensures '"' !in Double(v)
  {
    if |v| > 0 {
      DoubleNoQuote(v[1..]);
      assert v[0] in v;
      var head := if v[0] == '\\' then "\\\\" else [v[0]];
      assert Double(v) == head + Double(v[1..]);
    }
  }

  /** The match as `replace_backslashes` writes it back: the keyword and
      the white space copied, the value doubled. */
  function Fixed(m: Match): Match {
    Match(m.gap, Double(m.value))
  }

  lemma FixedIsHit(m: Match)
    requires IsHit(m)
    ensures IsHit(Fixed(m))
  {
    DoubleNoQuote(m.value);
  }

  function FixPieces(ps: seq<Piece>): (r: seq<Piece>)
    ensures |r| == |ps|
    ensures forall i | 0 <= i < |ps| :: r[i] == (if ps[i].Hit? then Hit(Fixed(ps[i].m)) else ps[i])
  {
    seq(|ps|, i requires 0 <= i < |ps| => if ps[i].Hit? then Hit(Fixed(ps[i].m)) else ps[i])
  }

  /** `re.sub(pattern, replace_backslashes, content)`. */
  function FixText(content: string): string {
    Render(Keyword, FixPieces(Scan(content, Keyword)))
  }

  /** The fixed text of a text whose first match is `m`, after `t`. */
  lemma FixTextAt(t: string, m: Match, rest: string)
    requires IsHit(m)
    requires MissesBefore(t + HitText(Keyword, m) + rest, Keyword, |t|)
    ensures FixText(t + HitText(Keyword, m) + rest) == t + HitText(Keyword, Fixed(m)) + FixText(rest)
  {
    var s := t + HitText(Keyword, m) + rest;
    ScanAt(t, Keyword, m, rest);
    var tail := Scan(rest, Keyword);
    FixPiecesFront(t, m, tail);
    RenderPlainHit(Keyword, t, Fixed(m), FixPieces(tail));
  }

  lemma FixTextNone(s: string)
    requires MissesBefore(s, Keyword, |s|)
    ensures FixText(s) == s
  {
    ScanNone(s, Keyword);
    assert FixPieces([Plain(s)]) == [Plain(s)];
    assert Render(Keyword, [Plain(s)]) == s + Render(Keyword, []);
  }

  /** Scanning the fixed text finds the same matches at the same places
      with their values doubled, and the same text between them: the
      doubled backslashes never create, move or hide a match. */
  lemma {:induction false} ScanFixText(s: string)
    ensures Scan(FixText(s), Keyword) == FixPieces(Scan(s, Keyword))
    decreases |s|
  {
    if NextHit(s, Keyword) == |s| {
      FixTextNone(s);
      ScanNone(s, Keyword);
      assert FixPieces([Plain(s)]) == [Plain(s)];
    } else {
      var t, m, rest := FirstHit(s, Keyword);
      ScanFixText(rest);
      ScanFixStep(t, m, rest);
    }
  }

  lemma ScanFixStep(t: string, m: Match, rest: string)
    requires IsHit(m)
    requires MissesBefore(t + HitText(Keyword, m) + rest, Keyword, |t|)
    requires Scan(FixText(rest), Keyword) == FixPieces(Scan(rest, Keyword))
    ensures Scan(FixText(t + HitText(Keyword, m) + rest), Keyword)
         == FixPieces(Scan(t + HitText(Keyword, m) + rest, Keyword))
  {
    var s := t + HitText(Keyword, m) + rest;
    var fixedRest := FixText(rest);
    FixTextAt(t, m, rest);
    assert FixText(s) == t + HitText(Keyword, Fixed(m)) + fixedRest;
    FixedIsHit(m);
    FixMisses(t, m, rest);
    ScanAt(t, Keyword, Fixed(m), fixedRest);
    ScanAt(t, Keyword, m, rest);
    FixPiecesFront(t, m, Scan(rest, Keyword));
  }

  lemma FixPiecesFront(t: string, m: Match, tail: seq<Piece>)
    ensures FixPieces([Plain(t), Hit(m)] + tail) == [Plain(t), Hit(Fixed(m))] + FixPieces(tail)
  {
    assert FixPieces([Plain(t), Hit(m)] + tail)[0] == Plain(t);
  }

  /** No match starts before the first fixed value either. */
  lemma FixMisses(t: string, m: Match, rest: string)
    requires MissesBefore(t + HitText(Keyword, m) + rest, Keyword, |t|)
    ensures MissesBefore(t + HitText(Keyword, Fixed(m)) + FixText(rest), Keyword, |t|)
  {
    var pre := Keyword + m.gap + "\"";
    var x, y := HitText(Keyword, m) + rest, HitText(Keyword, Fixed(m)) + FixText(rest);
    HitTextOpens(Keyword, m, rest);
    HitTextOpens(Keyword, Fixed(m), FixText(rest));
    AppendAssoc(t, HitText(Keyword, m), rest);
    MissesKept(t, x, y, Keyword, pre);
    AppendAssoc(t, HitText(Keyword, Fixed(m)), FixText(rest));
  }

  function FixAll(ms: seq<Match>): (r: seq<Match>)
    ensures |r| == |ms| && forall i | 0 <= i < |ms| :: r[i] == Fixed(ms[i])
  {
    seq(|ms|, i requires 0 <= i < |ms| => Fixed(ms[i]))
  }

  lemma {:induction false} MatchesFixPieces(ps: seq<Piece>)
    ensures Matches(FixPieces(ps)) == FixAll(Matches(ps))
  {
    if |ps| > 0 {
      MatchesFixPieces(ps[1..]);
      assert FixPieces(ps)[1..] == FixPieces(ps[1..]);
    }
  }

  /** What `re.findall` returns on the fixed text: the same matches, in
      order, with every value doubled. */
  lemma FindallFixText(s: string)
    ensures Findall(FixText(s), Keyword) == FixAll(Findall(s, Keyword))
  {
    ScanFixText(s);
    MatchesFixPieces(Scan(s, Keyword));
  }

  /** Outside the matched values nothing changes: reading the scan of the
      fixed text back with the old values gives the input. */
  lemma FixKeepsRest(s: string)
    ensures |Scan(FixText(s), Keyword)| == |Scan(s, Keyword)|
    ensures forall i | 0 <= i < |Scan(s, Keyword)| && Scan(s, Keyword)[i].Plain? ::
      Scan(FixText(s), Keyword)[i] == Scan(s, Keyword)[i]
    ensures forall i | 0 <= i < |Scan(s, Keyword)| && Scan(s, Keyword)[i].Hit? ::
      Scan(FixText(s), Keyword)[i].Hit? && Scan(FixText(s), Keyword)[i].m.gap == Scan(s, Keyword)[i].m.gap
  {
    ScanFixText(s);
  }

  // The returned counts

  /** `str.count('\\\\')`: non-overlapping backslash pairs, left to right. */
  function PairCount(s: string): nat {
    if |s| < 2 then 0
    else if s[0] == '\\' && s[1] == '\\' then 1 + PairCount(s[2..])
    else PairCount(s[1..])
  }

  /** Each backslash becomes one pair. */
  lemma {:induction false} PairCountDouble(v: string)
    ensures PairCount(Double(v)) == Count(v, '\\')
  {
    if |v| > 0 {
      PairCountDouble(v[1..]);
      var d := Double(v[1..]);
      if v[0] == '\\' {
        assert Double(v) == "\\\\" + d;
        assert ("\\\\" + d)[2..] == d;
      } else {
        assert Double(v) == [v[0]] + d;
        assert ([v[0]] + d)[1..] == d;
      }
    }
  }

  /** `sum(value.count('\\') for value in values)`. */
  function BackslashTotal(vs: seq<string>): nat {
    if |vs| == 0 then 0 else Count(vs[0], '\\') + BackslashTotal(vs[1..])
  }

  /** `sum(value.count('\\\\') for value in values)`. */
  function PairTotal(vs: seq<string>): nat {
    if |vs| == 0 then 0 else PairCount(vs[0]) + PairTotal(vs[1..])
  }

  lemma {:induction false} PairTotalFixAll(ms: seq<Match>)
    ensures PairTotal(Values(FixAll(ms))) == BackslashTotal(Values(ms))
  {
    if |ms| > 0 {
      PairTotalFixAll(ms[1..]);
      PairCountDouble(ms[0].value);
      assert Values(FixAll(ms))[1..] == Values(FixAll(ms[1..]));
      assert Values(ms)[1..] == Values(ms[1..]);
    }
  }

  /** The fixed text and the returned triple. */
  datatype FixReport = FixReport(text: string, properties: nat, backslashes: nat, pairs: nat)

  /** `fix_backslashes_in_turtle` on the file content. */
  function FixBackslashesInTurtle(content: string): (r: FixReport)
    ensures r.text == FixText(content)
    ensures r.properties == |Findall(content, Keyword)|
    ensures r.backslashes == BackslashTotal(Values(Findall(content, Keyword)))
    ensures r.pairs == PairTotal(Values(Findall(r.text, Keyword)))
    ensures r.pairs == r.backslashes
  {
    var found := Findall(content, Keyword);
    var text := FixText(content);
    FindallFixText(content);
    PairTotalFixAll(found);
    FixReport(text, |found|, BackslashTotal(Values(found)), PairTotal(Values(Findall(text, Keyword))))
  }

  /** A second run doubles again: the pass is not idempotent, and after
      two runs every original backslash stands for four. */
  lemma FixTwice(s: string)
    ensures Values(Findall(FixText(FixText(s)), Keyword))
         == seq(|Findall(s, Keyword)|, i requires 0 <= i < |Findall(s, Keyword)| => Double(Double(Findall(s, Keyword)[i].value)))
  {
    FindallFixText(s);
    FindallFixText(FixText(s));
  }

  /** The smallest text that shows it: one value holding one backslash. */
  lemma FixNotIdempotent()
    ensures var s := Keyword + " \"\\\"";
      FixText(FixText(s)) != FixText(s)
  {
    var m := Match(" ", "\\");
    var s := Keyword + " \"\\\"";
    assert s == "" + HitText(Keyword, m) + "";
    FindallAt("", Keyword, m, "");
    ScanNone("", Keyword);
    FindallFixText(s);
    FindallFixText(FixText(s));
    assert Double("\\") == "\\\\";
    assert Double("\\\\") == "\\\\" + Double("\\");
    assert Findall(FixText(s), Keyword)[0].value == "\\\\";
    assert Findall(FixText(FixText(s)), Keyword)[0].value == "\\\\\\\\";
  }

  /** Nothing matches in a text shorter than the keyword. */
  lemma ShortMisses(z: string)
    requires |z| < |Keyword|
    ensures MissesBefore(z, Keyword, |z|)
  {
    forall p | 0 <= p < |z| ensures MatchAt(z[p..], Keyword).None? {
      assert |z[p..]| < |Keyword|;
    }
  }

  /** The value stops at the first quote, escaped or not: in
      `dc:alternative "a\"b"` the value is `a\`. */
  lemma ValueCutAtQuote()
    ensures Values(Findall(Keyword + " \"a\\\"b\"", Keyword)) == ["a\\"]
  {
    var m := Match(" ", "a\\");
    var z := "b\"";
    assert Keyword + " \"a\\\"b\"" == "" + HitText(Keyword, m) + z;
    ShortMisses(z);
    ScanNone(z, Keyword);
    FindallAt("", Keyword, m, z);
  }

  /** Doubling the backslash of that cut value turns the escaped quote
      into a closing one: the fixed text is the value `a\\` in quotes
      followed by the stray text `b"`. */
  lemma CutValueBreaksEscape()
    ensures FixText(Keyword + " \"a\\\"b\"") == HitText(Keyword, Match(" ", "a\\\\")) + "b\""
  {
    var m := Match(" ", "a\\");
    var z := "b\"";
    assert Keyword + " \"a\\\"b\"" == "" + HitText(Keyword, m) + z;
    ShortMisses(z);
    FixTextNone(z);
    FixTextAt("", m, z);
    DoubleOfCut();
  }

  lemma DoubleOfCut()
    ensures Double("a\\") == "a\\\\"
  {
    assert ("a\\")[1..] == "\\";
    assert ("\\")[1..] == "";
    assert Double("\\") == "\\\\" + Double("");
  }
}

/** Deterministic organization URIs.

    `generate_organization_uri` is written out three times in the scripts,
    character for character the same (the conversion script, the lookup
    class and the integration script); this module is that one function.
    The URI is a fixed namespace followed by a slug of the name: symbols
    dropped, whitespace runs turned into `_`, lower-cased, cut to 50. */
module OrgUri {
  import opened Text

  /** The base shared by the project, dataset and organization namespaces. */
  const GraphBase: string := "https://w3id.org/" + "odissei/ns/kg/cbs/"
  const OrganizationNamespace: string := GraphBase + "organization/"
  const MaxSlugLength: nat := 50

  /** The characters `[a-zA-Z0-9\s]` keeps. */
  predicate Kept(c: char) {
    IsAsciiAlnum(c) || IsSpace(c)
  }

  /** `re.sub(r'[^a-zA-Z0-9\s]', '', s)`: the kept characters, in order. */
  function RemoveSymbols(s: string): (r: string)
    ensures |r| <= |s|
    ensures forall i | 0 <= i < |r| :: Kept(r[i])
    ensures forall c | Kept(c) :: Count(r, c) == Count(s, c)
  {
    if |s| == 0 then []
    else if Kept(s[0]) then
      var rest := RemoveSymbols(s[1..]);
      assert ([s[0]] + rest)[1..] == rest;
      [s[0]] + rest
    else RemoveSymbols(s[1..])
  }

  /** The filter is a homomorphism: each character is dealt with on its
      own, so the kept characters come out in the order of `s`. */
  lemma {:induction false} RemoveSymbolsAppend(a: string, b: string)
    ensures RemoveSymbols(a + b) == RemoveSymbols(a) + RemoveSymbols(b)
  {
    if |a| > 0 {
      assert (a + b)[1..] == a[1..] + b;
      RemoveSymbolsAppend(a[1..], b);
      if Kept(a[0]) {
        AppendAssoc([a[0]], RemoveSymbols(a[1..]), RemoveSymbols(b));
      }
    } else {
      assert a + b == b;
    }
  }

  /** One character is kept exactly when it is a letter, digit or space. */
  lemma RemoveSymbolsChar(c: char)
    ensures RemoveSymbols([c]) == if Kept(c) then [c] else []
  {
    assert [c][1..] == [];
  }

  /** `re.sub(r'\s+', '_', s)`: every maximal whitespace run becomes one `_`. */
  function Underscore(s: string): (r: string)
    decreases |s|
  {
    if |s| == 0 then []
    else if IsSpace(s[0]) then ['_'] + Underscore(LStrip(s[1..]))
    else [s[0]] + Underscore(s[1..])
  }

  /** The first `n` characters, or all of them when there are fewer. */
  function Truncate(s: string, n: nat): (r: string)
    ensures |r| <= n && |r| <= |s| && r == s[..|r|]
    ensures |s| <= n ==> r == s
    ensures |s| > n ==> |r| == n
  {
    if |s| > n then s[..n] else s
  }

  /** The slug `generate_organization_uri` appends to the namespace. */
  function Slug(name: string): string {
    Truncate(Lower(Underscore(Strip(RemoveSymbols(name)))), MaxSlugLength)
  }

  /** `generate_organization_uri(name)`. */
  function OrganizationUri(name: string): (uri: string)
    ensures StartsWith(uri, OrganizationNamespace)
    ensures uri[|OrganizationNamespace|..] == Slug(name)
  {
    OrganizationNamespace + Slug(name)
  }

  predicate SlugChar(c: char) {
    IsAsciiLower(c) || IsAsciiDigit(c) || c == '_'
  }

  /** No two consecutive underscores. */
  predicate NoDoubleUnderscore(s: string) {
    forall i | 0 <= i < |s| - 1 :: !(s[i] == '_' && s[i + 1] == '_')
  }

  /** What every slug looks like: at most 50 characters from `a-z0-9_`,
      never `__`, never a leading `_`. */
  predicate WellFormedSlug(s: string) {
    && |s| <= MaxSlugLength
    && (forall i | 0 <= i < |s| :: SlugChar(s[i]))
    && NoDoubleUnderscore(s)
    && (|s| > 0 ==> s[0] != '_')
  }

  /** Only letters, digits and isolated underscores. */
  predicate UnderscoreForm(u: string) {
    && (forall i | 0 <= i < |u| :: IsAsciiAlnum(u[i]) || u[i] == '_')
    && NoDoubleUnderscore(u)
  }

  /** Replacing whitespace runs in a string of kept characters yields only
      letters, digits and isolated underscores, and keeps a non-space first
      character in place. */
  lemma {:induction false} UnderscoreShape(s: string)
    requires forall i | 0 <= i < |s| :: Kept(s[i])
    ensures UnderscoreForm(Underscore(s))
    ensures |s| > 0 && !IsSpace(s[0]) ==> |Underscore(s)| > 0 && Underscore(s)[0] == s[0]
    ensures |s| > 0 && IsSpace(s[0]) ==> |Underscore(s)| > 0 && Underscore(s)[0] == '_'
    decreases |s|
  {
    if |s| > 0 {
      if IsSpace(s[0]) {
        var t := LStrip(s[1..]);
        LStripKept(s[1..]);
        UnderscoreShape(t);
        assert Underscore(s) == ['_'] + Underscore(t);
        ConsShape('_', Underscore(t));
      } else {
        UnderscoreShape(s[1..]);
        assert Underscore(s) == [s[0]] + Underscore(s[1..]);
        ConsShape(s[0], Underscore(s[1..]));
      }
    }
  }

  /** Left-stripping kept characters leaves kept characters, led by a
      letter or digit. */
  lemma LStripKept(k: string)
    requires forall i | 0 <= i < |k| :: Kept(k[i])
    ensures forall i | 0 <= i < |LStrip(k)| :: Kept(LStrip(k)[i])
    ensures |LStrip(k)| > 0 ==> IsAsciiAlnum(LStrip(k)[0])
  {
    var t := LStrip(k);
    forall i | 0 <= i < |t| ensures Kept(t[i]) {
      assert t[i] == k[|k| - |t| + i];
    }
  }

  /** One more character in front keeps the underscore structure unless it
      makes a `__`. */
  lemma ConsShape(c: char, u: string)
    requires IsAsciiAlnum(c) || c == '_'
    requires UnderscoreForm(u)
    requires c == '_' && |u| > 0 ==> u[0] != '_'
    ensures UnderscoreForm([c] + u)
  {
  }

  /** Stripping keeps only characters that were there. */
  lemma StripKeepsKept(k: string)
    requires forall i | 0 <= i < |k| :: Kept(k[i])
    ensures forall i | 0 <= i < |Strip(k)| :: Kept(Strip(k)[i])
  {
    var l := LStrip(k);
    var t := RStrip(l);
    forall i | 0 <= i < |t| ensures Kept(t[i]) {
      assert t[i] == l[i] == k[|k| - |l| + i];
    }
  }

  /** Lower-casing and truncating keep the underscore structure. */
  lemma LowerTruncateShape(u: string)
    requires UnderscoreForm(u)
    requires |u| > 0 ==> u[0] != '_'
    ensures WellFormedSlug(Truncate(Lower(u), MaxSlugLength))
  {
    var w := Lower(u);
    var s := Truncate(w, MaxSlugLength);
    assert forall i | 0 <= i < |s| :: s[i] == LowerChar(u[i]);
  }

  /** Every slug is well formed. */
  lemma SlugShape(name: string)
    ensures WellFormedSlug(Slug(name))
  {
    var k := RemoveSymbols(name);
    StripKeepsKept(k);
    var t := Strip(k);
    UnderscoreShape(t);
    LowerTruncateShape(Underscore(t));
  }

  /** Python's `s.split()`: the maximal runs of non-whitespace characters. */
  function Words(s: string): (ws: seq<string>)
    ensures forall k | 0 <= k < |ws| :: |ws[k]| > 0
    decreases |s|
  {
    if |s| == 0 then []
    else if IsSpace(s[0]) then Words(s[1..])
    else
      var w := WordPrefix(s);
      [w] + Words(s[|w|..])
  }

  /** The longest prefix of `s` without whitespace. */
  function WordPrefix(s: string): (w: string)
    ensures |w| <= |s| && w == s[..|w|]
    ensures forall i | 0 <= i < |w| :: !IsSpace(w[i])
    ensures |w| < |s| ==> IsSpace(s[|w|])
    ensures |s| > 0 && !IsSpace(s[0]) ==> |w| > 0
  {
    if |s| > 0 && !IsSpace(s[0]) then [s[0]] + WordPrefix(s[1..]) else []
  }

  lemma {:induction false} UnderscoreWord(w: string, z: string)
    requires forall i | 0 <= i < |w| :: !IsSpace(w[i])
    ensures Underscore(w + z) == w + Underscore(z)
  {
    if |w| > 0 {
      assert (w + z)[1..] == w[1..] + z;
      UnderscoreWord(w[1..], z);
    } else {
      assert w + z == z;
    }
  }

  lemma {:induction false} UnderscoreSpaces(sp: string, z: string)
    requires |sp| > 0 && forall i | 0 <= i < |sp| :: IsSpace(sp[i])
    requires |z| > 0 && !IsSpace(z[0])
    ensures Underscore(sp + z) == "_" + Underscore(z)
  {
    var s := sp + z;
    assert s[0] == sp[0];
    assert s[1..] == sp[1..] + z;
    LStripSpaces(sp[1..], z);
    assert Underscore(s) == ['_'] + Underscore(LStrip(s[1..]));
  }

  lemma {:induction false} LStripSpaces(sp: string, z: string)
    requires forall i | 0 <= i < |sp| :: IsSpace(sp[i])
    requires |z| > 0 && !IsSpace(z[0])
    ensures LStrip(sp + z) == z
  {
    if |sp| > 0 {
      assert (sp + z)[1..] == sp[1..] + z;
      LStripSpaces(sp[1..], z);
    } else {
      assert sp + z == z;
    }
  }

  lemma {:induction false} RStripKeepsPrefix(a: string, b: string)
    requires |b| > 0 && !IsSpace(b[0])
    ensures RStrip(a + b) == a + RStrip(b)
    decreases |b|
  {
    if IsSpace(b[|b| - 1]) {
      assert (a + b)[..|a + b| - 1] == a + b[..|b| - 1];
      RStripKeepsPrefix(a, b[..|b| - 1]);
    }
  }

  lemma WordsFromWordStart(y: string)
    requires |y| > 0 && !IsSpace(y[0])
    ensures Words(y) == [WordPrefix(y)] + Words(y[|WordPrefix(y)|..])
  {
  }

  lemma {:induction false} LStripOfSpaces(sp: string)
    requires forall i | 0 <= i < |sp| :: IsSpace(sp[i])
    ensures LStrip(sp) == []
  {
    if |sp| > 0 {
      LStripOfSpaces(sp[1..]);
    }
  }

  lemma {:induction false} WordsOfSpaces(sp: string)
    requires forall i | 0 <= i < |sp| :: IsSpace(sp[i])
    ensures Words(sp) == []
  {
    if |sp| > 0 {
      WordsOfSpaces(sp[1..]);
    }
  }

  lemma {:induction false} WordsAfterSpaces(sp: string, z: string)
    requires forall i | 0 <= i < |sp| :: IsSpace(sp[i])
    ensures Words(sp + z) == Words(z)
  {
    if |sp| > 0 {
      assert (sp + z)[1..] == sp[1..] + z;
      WordsAfterSpaces(sp[1..], z);
    } else {
      assert sp + z == z;
    }
  }

  /** Stripping and joining whitespace runs with `_` is Python's
      `'_'.join(s.split())`, for a string that starts with a non-space. */
  lemma {:induction false} UnderscoreIsJoinOfWords(y: string)
    requires |y| > 0 && !IsSpace(y[0])
    ensures Underscore(RStrip(y)) == Join(Words(y), '_')
    decreases |y|
  {
    var w := WordPrefix(y);
    var rest := y[|w|..];
    var y' := LStrip(rest);
    if |y'| == 0 {
      LastWord(y);
    } else {
      var sp := rest[..|rest| - |y'|];
      UnderscoreIsJoinOfWords(y');
      NextWordSplit(y, w, sp, y');
      NextWord(y, w, sp, y');
    }
  }

  lemma LastWord(y: string)
    requires |y| > 0 && !IsSpace(y[0])
    requires LStrip(y[|WordPrefix(y)|..]) == []
    ensures Underscore(RStrip(y)) == Join(Words(y), '_')
  {
    var w := WordPrefix(y);
    LastWordParts(y);
    UnderscoreWord(w, []);
    assert w + [] == w;
  }

  lemma LastWordParts(y: string)
    requires |y| > 0 && !IsSpace(y[0])
    requires LStrip(y[|WordPrefix(y)|..]) == []
    ensures Words(y) == [WordPrefix(y)]
    ensures RStrip(y) == WordPrefix(y)
  {
    var w := WordPrefix(y);
    var rest := y[|w|..];
    TrailingSpaces(rest);
    LastWordWords(y, w, rest);
    LastWordRStrip(y, w, rest);
  }

  lemma TrailingSpaces(rest: string)
    requires LStrip(rest) == []
    ensures forall i | 0 <= i < |rest| :: IsSpace(rest[i])
  {
  }

  lemma LastWordWords(y: string, w: string, rest: string)
    requires |y| > 0 && !IsSpace(y[0])
    requires w == WordPrefix(y) && rest == y[|w|..]
    requires forall i | 0 <= i < |rest| :: IsSpace(rest[i])
    ensures Words(y) == [w]
  {
    WordsFromWordStart(y);
    WordsOfSpaces(rest);
  }

  lemma LastWordRStrip(y: string, w: string, rest: string)
    requires |y| > 0 && !IsSpace(y[0])
    requires w == WordPrefix(y) && rest == y[|w|..]
    requires forall i | 0 <= i < |rest| :: IsSpace(rest[i])
    ensures RStrip(y) == w
  {
    assert y == w + rest;
    RStripSpacesTail(w, rest);
  }

  lemma NextWord(y: string, w: string, sp: string, y': string)
    requires |y| > 0 && !IsSpace(y[0])
    requires w == WordPrefix(y)
    requires y == w + sp + y'
    requires |sp| > 0 && forall i | 0 <= i < |sp| :: IsSpace(sp[i])
    requires |y'| > 0 && !IsSpace(y'[0])
    requires Underscore(RStrip(y')) == Join(Words(y'), '_')
    ensures Underscore(RStrip(y)) == Join(Words(y), '_')
  {
    NextWordWords(y, w, sp, y');
    NextWordRStrip(y, w, sp, y');
    WordsFromWordStart(y');
    var r' := RStrip(y');
    assert r'[0] == y'[0];
    UnderscoreNextWord(w, sp, r', Words(y'));
  }

  /** One word, the white space after it and the rest: the white space
      becomes the one `_` that `'_'.join` puts between words. */
  lemma UnderscoreNextWord(w: string, sp: string, r: string, ws: seq<string>)
    requires forall i | 0 <= i < |w| :: !IsSpace(w[i])
    requires |sp| > 0 && forall i | 0 <= i < |sp| :: IsSpace(sp[i])
    requires |r| > 0 && !IsSpace(r[0])
    requires |ws| > 0 && Underscore(r) == Join(ws, '_')
    ensures Underscore(w + (sp + r)) == Join([w] + ws, '_')
  {
    UnderscoreWord(w, sp + r);
    UnderscoreSpaces(sp, r);
    JoinCons(w, ws, '_');
    AppendAssoc(w, "_", Join(ws, '_'));
  }

  lemma NextWordSplit(y: string, w: string, sp: string, y': string)
    requires |y| > 0 && !IsSpace(y[0])
    requires w == WordPrefix(y)
    requires y' == LStrip(y[|w|..]) && |y'| > 0
    requires sp == y[|w|..][..|y[|w|..]| - |y'|]
    ensures y == w + sp + y'
    ensures |sp| > 0 && forall i | 0 <= i < |sp| :: IsSpace(sp[i])
    ensures !IsSpace(y'[0])
    ensures |RStrip(y')| > 0 && RStrip(y')[0] == y'[0]
  {
    var rest := y[|w|..];
    assert y == w + rest;
    assert rest[0] == y[|w|];
    SpacesBeforeRest(rest, sp, y');
    AppendAssoc(w, sp, y');
    RStripFront(y');
  }

  lemma RStripFront(s: string)
    requires |s| > 0 && !IsSpace(s[0])
    ensures |RStrip(s)| > 0 && RStrip(s)[0] == s[0]
  {
  }

  /** The white space `lstrip` removes from a text that starts with one. */
  lemma SpacesBeforeRest(rest: string, sp: string, y': string)
    requires |rest| > 0 && IsSpace(rest[0])
    requires y' == LStrip(rest)
    requires sp == rest[..|rest| - |y'|]
    ensures rest == sp + y'
    ensures |sp| > 0 && forall i | 0 <= i < |sp| :: IsSpace(sp[i])
  {
    var k := |rest| - |y'|;
    SplitAtSpaces(rest, k, y');
  }

  lemma SplitAtSpaces(rest: string, k: nat, y': string)
    requires k <= |rest| && rest[k..] == y'
    requires |rest| > 0 && IsSpace(rest[0])
    requires |y'| > 0 ==> !IsSpace(y'[0])
    requires forall i | 0 <= i < k :: IsSpace(rest[i])
    ensures rest == rest[..k] + y'
    ensures k > 0 && forall i | 0 <= i < k :: IsSpace(rest[..k][i])
  {
    assert |y'| > 0 ==> y'[0] == rest[k];
    assert rest == rest[..k] + rest[k..];
  }
  lemma NextWordWords(y: string, w: string, sp: string, y': string)
    requires |y| > 0 && !IsSpace(y[0])
    requires w == WordPrefix(y)
    requires y == w + sp + y'
    requires forall i | 0 <= i < |sp| :: IsSpace(sp[i])
    requires |y'| > 0 && !IsSpace(y'[0])
    ensures Words(y) == [w] + Words(y')
  {
    WordsFromWordStart(y);
    DropFirst(w, sp, y');
    WordsAfterSpaces(sp, y');
  }

  lemma NextWordRStrip(y: string, w: string, sp: string, y': string)
    requires y == w + sp + y'
    requires |y'| > 0 && !IsSpace(y'[0])
    ensures RStrip(y) == w + (sp + RStrip(y'))
  {
    RStripKeepsPrefix(w + sp, y');
  }

  lemma {:induction false} RStripSpacesTail(w: string, sp: string)
    requires forall i | 0 <= i < |w| :: !IsSpace(w[i])
    requires forall i | 0 <= i < |sp| :: IsSpace(sp[i])
    ensures RStrip(w + sp) == w
    decreases |sp|
  {
    if |sp| > 0 {
      assert (w + sp)[..|w + sp| - 1] == w + sp[..|sp| - 1];
      RStripSpacesTail(w, sp[..|sp| - 1]);
    } else {
      assert w + sp == w;
    }
  }

  /** Reference definition: the slug is the lower-cased words of the
      symbol-free name joined by `_`, cut to 50 characters. */
  lemma SlugIsJoinedWords(name: string)
    ensures Slug(name) == Truncate(Lower(Join(Words(RemoveSymbols(name)), '_')), MaxSlugLength)
  {
    var k := RemoveSymbols(name);
    var l := LStrip(k);
    assert Words(k) == Words(l) by {
      WordsAfterSpaces(k[..|k| - |l|], l);
      assert k == k[..|k| - |l|] + l;
    }
    if |l| == 0 {
      assert Strip(k) == [];
    } else {
      UnderscoreIsJoinOfWords(l);
    }
  }

  /** Names whose symbol-free forms agree get the same URI. */
  lemma UriDependsOnCleanedName(a: string, b: string)
    requires RemoveSymbols(a) == RemoveSymbols(b)
    ensures OrganizationUri(a) == OrganizationUri(b)
  {
  }
}

/** `escape_turtle_string` of the conversion script: a missing cell becomes
    the empty string, otherwise every backslash is doubled and then every
    double quote is preceded by a backslash, so that the text can sit
    between double quotes in a Turtle string literal. */
module TurtleEscape {
  import opened Wrappers
  import opened Text

  /** `s.replace(c, w)` for a one-character pattern. */
  function ReplaceChar(s: string, c: char, w: string): (r: string)
    ensures |r| == |s| + Count(s, c) * (|w| - 1)
    ensures c !in s ==> r == s
  {
    if |s| == 0 then []
    else (if s[0] == c then w else [s[0]]) + ReplaceChar(s[1..], c, w)
  }

  lemma {:induction false} ReplaceCharAppend(a: string, b: string, c: char, w: string)
    ensures ReplaceChar(a + b, c, w) == ReplaceChar(a, c, w) + ReplaceChar(b, c, w)
  {
    if |a| == 0 {
      assert a + b == b;
    } else {
      assert (a + b)[0] == a[0];
      assert (a + b)[1..] == a[1..] + b;
      ReplaceCharAppend(a[1..], b, c, w);
    }
  }

  /** The escape of one character in the combined single pass. */
  function EscapeChar(c: char): string {
    if c == '\\' then "\\\\" else if c == '"' then "\\\"" else [c]
  }

  /** Both replacements done in one left-to-right pass. */
  function Escape(s: string): string {
    if |s| == 0 then [] else EscapeChar(s[0]) + Escape(s[1..])
  }

  /** `escape_turtle_string(text)`: two successive `replace` calls, the
      backslash one first. */
  function EscapeTurtleString(cell: Option<string>): (r: string)
    ensures cell.None? ==> r == ""
    ensures cell.Some? ==> r == Escape(cell.value)
    ensures cell.Some? ==> |r| == |cell.value| + Count(cell.value, '\\') + Count(cell.value, '"')
  {
    match cell
    case None => ""
    case Some(t) =>
      TwoPassesAreOne(t);
      ReplaceChar(ReplaceChar(t, '\\', "\\\\"), '"', "\\\"")
  }

  /** Doubling the backslashes first and escaping the quotes second is the
      single pass: the first replacement introduces no quote, and the
      second does not touch the backslashes the first produced. */
  lemma {:induction false} TwoPassesAreOne(s: string)
    ensures ReplaceChar(ReplaceChar(s, '\\', "\\\\"), '"', "\\\"") == Escape(s)
    ensures |Escape(s)| == |s| + Count(s, '\\') + Count(s, '"')
  {
    if |s| > 0 {
      TwoPassesAreOne(s[1..]);
      var head := if s[0] == '\\' then "\\\\" else [s[0]];
      assert ReplaceChar(s, '\\', "\\\\") == head + ReplaceChar(s[1..], '\\', "\\\\");
      ReplaceCharAppend(head, ReplaceChar(s[1..], '\\', "\\\\"), '"', "\\\"");
      if s[0] == '\\' {
        assert ReplaceChar(head, '"', "\\\"") == "\\\\" by {
          assert head[1..] == "\\";
          assert ReplaceChar(head[1..], '"', "\\\"") == "\\" by {
            assert head[1..][1..] == [];
          }
        }
      } else {
        assert ReplaceChar(head, '"', "\\\"") == EscapeChar(s[0]) by {
          assert head[1..] == [];
        }
      }
    }
  }

  /** Text in which every backslash starts an escape pair `\\` or `\"` and
      no quote stands alone: the shape a literal body needs so that its
      closing quote is the first unescaped one. */
  predicate WellEscaped(t: string) {
    if |t| == 0 then true
    else if t[0] == '\\' then |t| >= 2 && (t[1] == '\\' || t[1] == '"') && WellEscaped(t[2..])
    else t[0] != '"' && WellEscaped(t[1..])
  }

  /** Reading escape pairs back, left to right. */
  function Unescape(t: string): string {
    if |t| >= 2 && t[0] == '\\' then [t[1]] + Unescape(t[2..])
    else if |t| == 0 then []
    else [t[0]] + Unescape(t[1..])
  }

  lemma {:induction false} EscapeAppend(a: string, b: string)
    ensures Escape(a + b) == Escape(a) + Escape(b)
  {
    if |a| == 0 {
      assert a + b == b;
    } else {
      assert (a + b)[0] == a[0];
      assert (a + b)[1..] == a[1..] + b;
      EscapeAppend(a[1..], b);
    }
  }

  /** Escaped text is well escaped and reads back to the original. */
  lemma {:induction false} EscapeRoundTrip(s: string)
    ensures WellEscaped(Escape(s))
    ensures Unescape(Escape(s)) == s
  {
    if |s| > 0 {
      EscapeRoundTrip(s[1..]);
      var e := Escape(s);
      var h := EscapeChar(s[0]);
      assert e == h + Escape(s[1..]);
      if |h| == 2 {
        assert e[2..] == Escape(s[1..]);
      } else {
        assert e[1..] == Escape(s[1..]);
      }
    }
  }

  /** Every well-escaped text is the escape of exactly one string: the one
      it reads back to. */
  lemma {:induction false} UnescapeRoundTrip(t: string)
    requires WellEscaped(t)
    ensures Escape(Unescape(t)) == t
  {
    if |t| > 0 {
      if t[0] == '\\' {
        UnescapeRoundTrip(t[2..]);
        assert t == t[..2] + t[2..];
      } else {
        UnescapeRoundTrip(t[1..]);
        assert t == [t[0]] + t[1..];
      }
    }
  }

  /** The escape is injective, so distinct cell texts stay distinct in
      the output. */
  lemma EscapeInjective(a: string, b: string)
    requires Escape(a) == Escape(b)
    ensures a == b
  {
    EscapeRoundTrip(a);
    EscapeRoundTrip(b);
  }

  /** Escaping twice is not escaping once: a backslash is doubled again. */
  lemma EscapeNotIdempotent()
    ensures Escape(Escape("\\")) != Escape("\\")
  {
    assert Escape("\\") == "\\\\";
    assert Escape("\\\\") == "\\\\" + Escape("\\");
  }
}

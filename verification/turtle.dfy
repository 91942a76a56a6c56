/** The line layout every script here writes Turtle in: a subject line
    `<uri>`, then indented predicate-object statements, each ending ` ;`
    except the last, which ends ` .`. */
module TurtleLines {
  import opened Text

  /** The subject line of a block. */
  function Subject(uri: string): (line: string)
    ensures StartsWith(line, "<") && EndsWith(line, ">")
  {
    var line := "<" + uri + ">";
    assert line[|line| - 1..] == ">";
    line
  }

  /** One indented statement line of a subject block, ending ` ;`. */
  function Statement(po: string): (line: string)
    ensures EndsWith(line, " ;") && line[..|line| - 2] == "   " + po
  {
    var line := "   " + po + " ;";
    assert line[|line| - 2..] == " ;";
    line
  }

  /** Turn a trailing ` ;` into ` .`. */
  function CloseStatement(line: string): (r: string)
    ensures EndsWith(line, " ;") ==> |r| == |line| && r[..|r| - 2] == line[..|line| - 2] && EndsWith(r, " .")
    ensures !EndsWith(line, " ;") ==> r == line
  {
    if EndsWith(line, " ;") then line[..|line| - 2] + " ." else line
  }

  /** Statement lines for the given pairs, none of them closed. */
  function OpenLines(ps: seq<string>): (ls: seq<string>)
    ensures |ls| == |ps|
    ensures forall i | 0 <= i < |ps| :: EndsWith(ls[i], " ;") && ls[i][..|ls[i]| - 2] == "   " + ps[i]
  {
    seq(|ps|, i requires 0 <= i < |ps| => Statement(ps[i]))
  }

  /** Statement lines for the given pairs, the last one closed. */
  function StatementLines(ps: seq<string>): (ls: seq<string>)
    ensures |ls| == |ps|
    ensures forall i | 0 <= i < |ps| - 1 :: ls[i] == "   " + ps[i] + " ;"
    ensures |ps| > 0 ==> ls[|ps| - 1] == "   " + ps[|ps| - 1] + " ."
  {
    if |ps| == 0 then []
    else
      var last := Statement(ps[|ps| - 1]);
      assert CloseStatement(last) == "   " + ps[|ps| - 1] + " .";
      OpenLines(ps[..|ps| - 1]) + [CloseStatement(last)]
  }

  /** A character that is none of the space, `;` and `.` a statement line
      adds occurs in no line unless it occurs in its statement. */
  lemma StatementLinesAvoid(ps: seq<string>, c: char)
    requires c != ' ' && c != ';' && c != '.'
    requires forall i | 0 <= i < |ps| :: c !in ps[i]
    ensures forall i | 0 <= i < |ps| :: c !in StatementLines(ps)[i]
  {
    var ls := StatementLines(ps);
    forall i | 0 <= i < |ps| ensures c !in ls[i] {
      var close := if i == |ps| - 1 then " ." else " ;";
      assert ls[i] == "   " + ps[i] + close;
      assert c !in "   " && c !in close;
    }
  }

  /** Only the very last statement is closed: lines for `xs + ys` are the
      open lines of `xs` followed by the lines of a non-empty `ys`. */
  lemma StatementLinesAppend(xs: seq<string>, ys: seq<string>)
    requires |ys| > 0
    ensures StatementLines(xs + ys) == OpenLines(xs) + StatementLines(ys)
  {
    var l := StatementLines(xs + ys);
    var r := OpenLines(xs) + StatementLines(ys);
    assert |l| == |r|;
    forall i | 0 <= i < |l| ensures l[i] == r[i] {
      if i < |xs| {
        assert (xs + ys)[i] == xs[i];
        assert r[i] == Statement(xs[i]);
      } else {
        assert (xs + ys)[i] == ys[i - |xs|];
      }
    }
  }

  /** No statement line starts a new subject. */
  lemma StatementIsIndented(ps: seq<string>, i: int)
    requires 0 <= i < |ps|
    ensures !StartsWith(StatementLines(ps)[i], "<")
  {
    var l := StatementLines(ps)[i];
    assert l[0] == ' ';
  }
}

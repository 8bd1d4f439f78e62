/** The line diff behind "partout elevation check" (cmd/partout/elevation.go:70-123). */
module ElevationDiff {

  // ---- lines of a text ----

  /** strings.TrimRight(s, "\n") */
  function TrimNewlines(s: string): string {
    if s != "" && s[|s| - 1] == '\n' then TrimNewlines(s[..|s| - 1]) else s
  }

  /** strings.Split(s, "\n"): never the empty list. */
  function Split(s: string): (r: seq<string>)
    ensures |r| > 0
  {
    if s == "" then [""]
    else
      var r := Split(s[1..]);
      if s[0] == '\n' then [""] + r else [[s[0]] + r[0]] + r[1..]
  }

  /** strings.Join(lines, "\n") */
  function Join(lines: seq<string>): string {
    if lines == [] then ""
    else if |lines| == 1 then lines[0]
    else lines[0] + "\n" + Join(lines[1..])
  }

  lemma {:induction false} JoinSplit(s: string)
    ensures Join(Split(s)) == s
  {
    if s != "" {
      JoinSplit(s[1..]);
      var r := Split(s[1..]);
      if s[0] == '\n' {
        assert ([""] + r)[1..] == r;
      } else {
        var t := [[s[0]] + r[0]] + r[1..];
        assert t[1..] == r[1..];
        assert [s[0]] + s[1..] == s;
      }
    }
  }

  predicate NoNewline(lines: seq<string>) {
    forall l <- lines :: '\n' !in l
  }

  lemma {:induction false} SplitIntoLines(s: string)
    ensures NoNewline(Split(s))
  {
    if s != "" {
      SplitIntoLines(s[1..]);
      var r := Split(s[1..]);
      forall l | l in Split(s) ensures '\n' !in l {
        assert l == "" || l == [s[0]] + r[0] || l in r;
      }
    }
  }

  lemma {:induction false} SplitFirst(l: string, s: string)
    requires '\n' !in l
    ensures Split(l) == [l] && Split(l + "\n" + s) == [l] + Split(s)
  {
    if l == "" {
      assert l + "\n" + s == ['\n'] + s;
    } else {
      SplitFirst(l[1..], s);
      assert (l + "\n" + s)[1..] == l[1..] + "\n" + s;
      assert [l[0]] + l[1..] == l;
    }
  }

  lemma {:induction false} SplitJoin(lines: seq<string>)
    requires lines != [] && NoNewline(lines)
    ensures Split(Join(lines)) == lines
  {
    SplitFirst(lines[0], Join(lines[1..]));
    if |lines| > 1 { SplitJoin(lines[1..]); }
  }

  /** t is s with newlines at its end. */
  predicate EndsIn(s: string, t: string) {
    s <= t && forall i :: |s| <= i < |t| ==> t[i] == '\n'
  }

  /** Trimming takes off newlines only, and all of them at the end. */
  lemma {:induction false} TrimExactly(s: string)
    ensures EndsIn(TrimNewlines(s), s)
    ensures TrimNewlines(s) != "" ==> TrimNewlines(s)[|TrimNewlines(s)| - 1] != '\n'
  {
    if s != "" && s[|s| - 1] == '\n' {
      TrimExactly(s[..|s| - 1]);
      assert s == s[..|s| - 1] + "\n";
    }
  }

  /** Two texts are the same after trimming exactly when one is the other with newlines at its end. */
  lemma TrimSame(s: string, t: string)
    ensures TrimNewlines(s) == TrimNewlines(t) <==> EndsIn(s, t) || EndsIn(t, s)
  {
    TrimExactly(s);
    TrimExactly(t);
    if TrimNewlines(s) == TrimNewlines(t) {
      if |s| <= |t| {
        assert s == t[..|s|];
      } else {
        assert t == s[..|t|];
      }
    }
    if EndsIn(s, t) { TrimLonger(s, t); }
    if EndsIn(t, s) { TrimLonger(t, s); }
  }

  lemma TrimLonger(s: string, t: string)
    requires EndsIn(s, t)
    ensures TrimNewlines(s) == TrimNewlines(t)
  {
    TrimExactly(s);
    TrimExactly(t);
    var x, y := TrimNewlines(s), TrimNewlines(t);
    assert forall i :: |x| <= i < |t| ==> t[i] == '\n';
    assert x != "" ==> x[|x| - 1] == t[|x| - 1];
    assert y != "" ==> y[|y| - 1] == t[|y| - 1];
    assert |x| == |y|;
  }

  // ---- what the scan does with each line ----

  /** Both: the same line on both sides, silently passed over. Del and Ins: a reported line.
      UseA and UseB: a line of one side that was found ahead on the other and is passed over
      without its partner. */
  datatype Step = Both(line: string) | Del(line: string) | Ins(line: string) | UseA(line: string) | UseB(line: string)

  /** The parts of a scan: the lines of one file, those of them reported, those of them passed over. */
  datatype Part = InA | InB | Removed | Added | SilentA | SilentB

  predicate Takes(p: Part, s: Step) {
    match p
    case InA => s.Both? || s.Del? || s.UseA?
    case InB => s.Both? || s.Ins? || s.UseB?
    case Removed => s.Del?
    case Added => s.Ins?
    case SilentA => s.Both? || s.UseA?
    case SilentB => s.Both? || s.UseB?
  }

  function Lines(t: seq<Step>, p: Part): seq<string> {
    if t == [] then []
    else if Takes(p, t[0]) then [t[0].line] + Lines(t[1..], p)
    else Lines(t[1..], p)
  }

  /** The output lines of a scan. */
  function Report(t: seq<Step>): seq<string> {
    if t == [] then []
    else (match t[0] case Del(l) => ["- " + l] case Ins(l) => ["+ " + l] case _ => []) + Report(t[1..])
  }

  function Dels(xs: seq<string>): seq<Step> {
    if xs == [] then [] else [Del(xs[0])] + Dels(xs[1..])
  }

  function Inss(xs: seq<string>): seq<Step> {
    if xs == [] then [] else [Ins(xs[0])] + Inss(xs[1..])
  }

  /** The lookahead: the first of the next three lines equal to x, or |a|. */
  function Ahead(a: seq<string>, x: string): (k: nat)
    ensures k <= |a|
    ensures k < |a| ==> k < 3 && a[k] == x
    ensures k == |a| ==> forall m :: 0 <= m < 3 && m < |a| ==> a[m] != x
  {
    if |a| > 0 && a[0] == x then 0
    else if |a| > 1 && a[1] == x then 1
    else if |a| > 2 && a[2] == x then 2
    else |a|
  }

  /** One turn of the scan: the steps it takes and how many lines of each file it consumes. */
  datatype Turn = Turn(steps: seq<Step>, i: nat, j: nat)

  function Head(a: seq<string>, b: seq<string>): (h: Turn)
    requires a != [] && b != []
    ensures h.i <= |a| && h.j <= |b| && h.i + h.j > 0
  {
    if a[0] == b[0] then Turn([Both(a[0])], 1, 1)
    else
      var k := Ahead(a, b[0]);
      if k < |a| then Turn(Dels(a[..k]) + [UseB(b[0])], k, 1)
      else
        var m := Ahead(b, a[0]);
        if m < |b| then Turn(Inss(b[..m]) + [UseA(a[0])], 1, m)
        else Turn([Del(a[0]), Ins(b[0])], 1, 1)
  }

  function Scan(a: seq<string>, b: seq<string>): seq<Step>
    decreases |a| + |b|, 1
  {
    if a == [] || b == [] then Dels(a) + Inss(b)
    else Head(a, b).steps + Rest(a, b)
  }

  function Rest(a: seq<string>, b: seq<string>): seq<Step>
    requires a != [] && b != []
    decreases |a| + |b|, 0
  {
    Scan(a[Head(a, b).i..], b[Head(a, b).j..])
  }

  // ---- the loops ----

  lemma {:induction false} ReportConcat(s: seq<Step>, t: seq<Step>)
    ensures Report(s + t) == Report(s) + Report(t)
  {
    if s == [] {
      assert s + t == t;
    } else {
      assert (s + t)[1..] == s[1..] + t;
      ReportConcat(s[1..], t);
    }
  }

  lemma ReportTurn(a: seq<string>, b: seq<string>)
    requires a != [] && b != []
    ensures Report(Scan(a, b)) == Report(Head(a, b).steps) + Report(Rest(a, b))
  {
    ReportConcat(Head(a, b).steps, Rest(a, b));
  }

  lemma ReportHead(a: seq<string>, b: seq<string>)
    requires a != [] && b != []
    ensures var k, m := Ahead(a, b[0]), Ahead(b, a[0]);
            Report(Head(a, b).steps) ==
            if a[0] == b[0] then []
            else if k < |a| then Report(Dels(a[..k]))
            else if m < |b| then Report(Inss(b[..m]))
            else ["- " + a[0], "+ " + b[0]]
  {
    var k, m := Ahead(a, b[0]), Ahead(b, a[0]);
    ReportConcat(Dels(a[..k]), [UseB(b[0])]);
    ReportConcat(Inss(b[..m]), [UseA(a[0])]);
    ReportConcat([Del(a[0])], [Ins(b[0])]);
    assert [Del(a[0])] + [Ins(b[0])] == [Del(a[0]), Ins(b[0])];
  }

  lemma Assoc(x: seq<string>, y: seq<string>, z: seq<string>)
    ensures (x + y) + z == x + (y + z)
  {
  }

  lemma AdvanceHead(a: seq<string>, b: seq<string>, i: nat, j: nat, full: seq<string>, out: seq<string>)
    requires i < |a| && j < |b| && full == out + Report(Scan(a[i..], b[j..]))
    ensures var h := Head(a[i..], b[j..]);
            && i + h.i <= |a| && j + h.j <= |b|
            && full == (out + Report(h.steps)) + Report(Scan(a[i + h.i..], b[j + h.j..]))
  {
    var h := Head(a[i..], b[j..]);
    ReportTurn(a[i..], b[j..]);
    assert a[i..][h.i..] == a[i + h.i..] && b[j..][h.j..] == b[j + h.j..];
    Assoc(out, Report(h.steps), Report(Rest(a[i..], b[j..])));
  }

  lemma AdvanceMatch(a: seq<string>, b: seq<string>, i: nat, j: nat, full: seq<string>, out: seq<string>)
    requires i < |a| && j < |b| && full == out + Report(Scan(a[i..], b[j..])) && a[i] == b[j]
    ensures full == out + Report(Scan(a[i + 1..], b[j + 1..]))
  {
    AdvanceHead(a, b, i, j, full, out);
    ReportHead(a[i..], b[j..]);
    assert out + [] == out;
  }

  lemma AdvanceDels(a: seq<string>, b: seq<string>, i: nat, j: nat, k: nat, full: seq<string>, out: seq<string>)
    requires i < |a| && j < |b| && full == out + Report(Scan(a[i..], b[j..])) && a[i] != b[j]
    requires k == i + Ahead(a[i..], b[j]) < |a|
    ensures full == (out + Report(Dels(a[i..k]))) + Report(Scan(a[k..], b[j + 1..]))
  {
    var x, y := a[i..], b[j..];
    AdvanceHead(a, b, i, j, full, out);
    assert Head(x, y).i == k - i && Head(x, y).j == 1;
    assert Report(Head(x, y).steps) == Report(Dels(a[i..k])) by {
      ReportHead(x, y);
      assert x[..k - i] == a[i..k];
    }
  }

  lemma AdvanceInss(a: seq<string>, b: seq<string>, i: nat, j: nat, m: nat, full: seq<string>, out: seq<string>)
    requires i < |a| && j < |b| && full == out + Report(Scan(a[i..], b[j..])) && a[i] != b[j]
    requires i + Ahead(a[i..], b[j]) == |a| && m == j + Ahead(b[j..], a[i]) < |b|
    ensures full == (out + Report(Inss(b[j..m]))) + Report(Scan(a[i + 1..], b[m..]))
  {
    AdvanceHead(a, b, i, j, full, out);
    ReportHead(a[i..], b[j..]);
    assert b[j..][..m - j] == b[j..m];
  }

  lemma AdvanceBoth(a: seq<string>, b: seq<string>, i: nat, j: nat, full: seq<string>, out: seq<string>)
    requires i < |a| && j < |b| && full == out + Report(Scan(a[i..], b[j..])) && a[i] != b[j]
    requires i + Ahead(a[i..], b[j]) == |a| && j + Ahead(b[j..], a[i]) == |b|
    ensures full == (out + ["- " + a[i], "+ " + b[j]]) + Report(Scan(a[i + 1..], b[j + 1..]))
  {
    AdvanceHead(a, b, i, j, full, out);
    ReportHead(a[i..], b[j..]);
  }

  method DiffLines(a: seq<string>, b: seq<string>) returns (out: seq<string>)
    ensures out == Report(Scan(a, b))
  {
    out := [];
    var i, j := 0, 0;
    assert a[0..] == a && b[0..] == b;
    ghost var full := Report(Scan(a, b));
    while i < |a| && j < |b|
      invariant i <= |a| && j <= |b|
      invariant full == out + Report(Scan(a[i..], b[j..]))
      decreases |a| - i + |b| - j
    {
      if a[i] == b[j] {
        AdvanceMatch(a, b, i, j, full, out);
        i, j := i + 1, j + 1;
        continue;
      }
      var k := FindAhead(a, i, b[j]);
      if k < |a| {
        AdvanceDels(a, b, i, j, k, full, out);
        out := EmitDels(a, i, k, out);
        i, j := k, j + 1;
        continue;
      }
      var m := FindAhead(b, j, a[i]);
      if m < |b| {
        AdvanceInss(a, b, i, j, m, full, out);
        out := EmitInss(b, j, m, out);
        i, j := i + 1, m;
        continue;
      }
      AdvanceBoth(a, b, i, j, full, out);
      out := out + ["- " + a[i], "+ " + b[j]];
      i, j := i + 1, j + 1;
    }
    ReportConcat(Dels(a[i..]), Inss(b[j..]));
    Assoc(out, Report(Dels(a[i..])), Report(Inss(b[j..])));
    assert a[i..|a|] == a[i..] && b[j..|b|] == b[j..];
    out := EmitDels(a, i, |a|, out);
    out := EmitInss(b, j, |b|, out);
  }

  /** The lookahead loop over at most three lines. */
  method FindAhead(a: seq<string>, i: nat, x: string) returns (k: nat)
    requires i < |a|
    ensures i <= k <= |a| && k == i + Ahead(a[i..], x)
  {
    k := i;
    ghost var s := a[i..];
    while k < |a| && k < i + 3
      invariant i <= k <= |a| && k <= i + 3
      invariant forall m :: 0 <= m < k - i ==> s[m] != x
    {
      if a[k] == x { assert s[k - i] == x; return; }
      assert s[k - i] != x;
      k := k + 1;
    }
    k := |a|;
  }

  method EmitDels(a: seq<string>, from: nat, k: nat, before: seq<string>) returns (out: seq<string>)
    requires from <= k <= |a|
    ensures out == before + Report(Dels(a[from..k]))
  {
    out := before;
    var i := from;
    while i < k
      invariant from <= i <= k
      invariant out + Report(Dels(a[i..k])) == before + Report(Dels(a[from..k]))
    {
      assert a[i..k][1..] == a[i + 1..k];
      out := out + ["- " + a[i]];
      i := i + 1;
    }
  }

  method EmitInss(b: seq<string>, from: nat, k: nat, before: seq<string>) returns (out: seq<string>)
    requires from <= k <= |b|
    ensures out == before + Report(Inss(b[from..k]))
  {
    out := before;
    var j := from;
    while j < k
      invariant from <= j <= k
      invariant out + Report(Inss(b[j..k])) == before + Report(Inss(b[from..k]))
    {
      assert b[j..k][1..] == b[j + 1..k];
      out := out + ["+ " + b[j]];
      j := j + 1;
    }
  }

  function DiffText(installed: string, rendered: string): string {
    Join(Report(Scan(Split(TrimNewlines(installed)), Split(TrimNewlines(rendered)))))
  }

  /** The scan, turn by turn: equal lines are passed over; a line of b found one or two places
      down a is passed over, after the lines of a before it were reported; failing that, the same
      with a and b exchanged; failing both, the two lines are reported. */
  lemma TurnExactly(a: seq<string>, b: seq<string>)
    requires a != [] && b != []
    ensures Report(Scan(a, b)) ==
            if a[0] == b[0] then Report(Scan(a[1..], b[1..]))
            else if |a| > 1 && a[1] == b[0] then ["- " + a[0]] + Report(Scan(a[1..], b[1..]))
            else if |a| > 2 && a[2] == b[0] then ["- " + a[0], "- " + a[1]] + Report(Scan(a[2..], b[1..]))
            else if |b| > 1 && b[1] == a[0] then ["+ " + b[0]] + Report(Scan(a[1..], b[1..]))
            else if |b| > 2 && b[2] == a[0] then ["+ " + b[0], "+ " + b[1]] + Report(Scan(a[1..], b[2..]))
            else ["- " + a[0], "+ " + b[0]] + Report(Scan(a[1..], b[1..]))
  {
    ReportTurn(a, b);
    ReportHead(a, b);
    ReportedAhead(a, Ahead(a, b[0]));
    ReportedAhead(b, Ahead(b, a[0]));
  }

  lemma ReportedAhead(s: seq<string>, k: nat)
    requires k <= |s|
    ensures k == 1 ==> Report(Dels(s[..k])) == ["- " + s[0]] && Report(Inss(s[..k])) == ["+ " + s[0]]
    ensures k == 2 ==> Report(Dels(s[..k])) == ["- " + s[0], "- " + s[1]]
    ensures k == 2 ==> Report(Inss(s[..k])) == ["+ " + s[0], "+ " + s[1]]
  {
    ReportedAll(s[..k]);
  }

  lemma {:induction false} ReportedAll(s: seq<string>)
    ensures |Report(Dels(s))| == |Report(Inss(s))| == |s|
    ensures forall i :: 0 <= i < |s| ==> Report(Dels(s))[i] == "- " + s[i] && Report(Inss(s))[i] == "+ " + s[i]
  {
    if s != [] { ReportedAll(s[1..]); }
  }

  /** When one file is used up, every remaining line of the other is reported. */
  lemma TailExactly(a: seq<string>, b: seq<string>)
    requires a == [] || b == []
    ensures var out := Report(Scan(a, b));
            && |out| == |a| + |b|
            && (forall i :: 0 <= i < |a| ==> out[i] == "- " + a[i])
            && (forall i :: 0 <= i < |b| ==> out[i] == "+ " + b[i])
  {
    ReportConcat(Dels(a), Inss(b));
    ReportedAll(a);
    ReportedAll(b);
  }

  // ---- an empty report ----

  lemma {:induction false} NothingReported(a: seq<string>, b: seq<string>)
    ensures Report(Scan(a, b)) == [] <==> a == b
    decreases |a| + |b|
  {
    if a == [] || b == [] {
      TailExactly(a, b);
    } else {
      TurnExactly(a, b);
      if a[0] == b[0] {
        NothingReported(a[1..], b[1..]);
        assert a == [a[0]] + a[1..] && b == [b[0]] + b[1..];
      }
    }
  }

  lemma {:induction false} ReportedLinesAreMarked(t: seq<Step>)
    ensures forall l :: l in Report(t) ==> "- " <= l || "+ " <= l
  {
    if t != [] { ReportedLinesAreMarked(t[1..]); }
  }

  lemma EmptyMeansEqual(installed: string, rendered: string)
    ensures DiffText(installed, rendered) == "" <==> EndsIn(installed, rendered) || EndsIn(rendered, installed)
  {
    TrimSame(installed, rendered);
    var x, y := TrimNewlines(installed), TrimNewlines(rendered);
    var out := Report(Scan(Split(x), Split(y)));
    NothingReported(Split(x), Split(y));
    JoinSplit(x);
    JoinSplit(y);
    ReportedLinesAreMarked(Scan(Split(x), Split(y)));
    if out != [] { assert out[0] in out; }
  }

  method Diff(installed: string, rendered: string) returns (text: string)
    ensures text == DiffText(installed, rendered)
    ensures text == "" <==> EndsIn(installed, rendered) || EndsIn(rendered, installed)
  {
    var out := DiffLines(Split(TrimNewlines(installed)), Split(TrimNewlines(rendered)));
    text := Join(out);
    EmptyMeansEqual(installed, rendered);
  }

  // ---- what the report says about the two files ----

  /** z is an interleaving of x and y: it contains both, each in its own order, and nothing else. */
  predicate Merge(x: seq<string>, y: seq<string>, z: seq<string>) {
    if z == [] then x == [] && y == []
    else
      || (x != [] && x[0] == z[0] && Merge(x[1..], y, z[1..]))
      || (y != [] && y[0] == z[0] && Merge(x, y[1..], z[1..]))
  }

  lemma {:induction false} LinesConcat(s: seq<Step>, t: seq<Step>, p: Part)
    ensures Lines(s + t, p) == Lines(s, p) + Lines(t, p)
  {
    if s == [] {
      assert s + t == t;
    } else {
      assert (s + t)[1..] == s[1..] + t;
      LinesConcat(s[1..], t, p);
    }
  }

  lemma {:induction false} LinesOfDels(xs: seq<string>)
    ensures Lines(Dels(xs), InA) == xs
    ensures Lines(Dels(xs), InB) == Lines(Dels(xs), SilentA) == Lines(Dels(xs), SilentB) == []
  {
    if xs != [] { LinesOfDels(xs[1..]); }
  }

  lemma {:induction false} LinesOfInss(xs: seq<string>)
    ensures Lines(Inss(xs), InB) == xs
    ensures Lines(Inss(xs), InA) == Lines(Inss(xs), SilentA) == Lines(Inss(xs), SilentB) == []
  {
    if xs != [] { LinesOfInss(xs[1..]); }
  }

  lemma LinesOfTail(a: seq<string>, b: seq<string>)
    requires a == [] || b == []
    ensures var t := Scan(a, b);
            && Lines(t, InA) == a && Lines(t, InB) == b
            && Lines(t, SilentA) == [] && Lines(t, SilentB) == []
  {
    LinesOfDels(a);
    LinesOfInss(b);
    LinesConcat(Dels(a), Inss(b), InA);
    LinesConcat(Dels(a), Inss(b), InB);
    LinesConcat(Dels(a), Inss(b), SilentA);
    LinesConcat(Dels(a), Inss(b), SilentB);
  }

  lemma LinesSnoc(t: seq<Step>, s: Step, p: Part)
    ensures Lines(t + [s], p) == if Takes(p, s) then Lines(t, p) + [s.line] else Lines(t, p)
  {
    LinesConcat(t, [s], p);
    assert [s][1..] == [];
  }

  lemma LinesOfOne(l: string)
    ensures var t := [Both(l)];
            Lines(t, InA) == Lines(t, InB) == Lines(t, SilentA) == Lines(t, SilentB) == [l]
  {
    assert [Both(l)][1..] == [];
  }

  lemma LinesOfTwo(x: string, y: string)
    ensures var t := [Del(x), Ins(y)];
            && Lines(t, InA) == [x] && Lines(t, InB) == [y]
            && Lines(t, SilentA) == [] && Lines(t, SilentB) == []
  {
    assert Dels([x]) + [Ins(y)] == [Del(x), Ins(y)];
    LinesOfDels([x]);
    LinesSnoc(Dels([x]), Ins(y), InA);
    LinesSnoc(Dels([x]), Ins(y), InB);
    LinesSnoc(Dels([x]), Ins(y), SilentA);
    LinesSnoc(Dels([x]), Ins(y), SilentB);
  }

  lemma DelsThenUse(xs: seq<string>, l: string)
    ensures var t := Dels(xs) + [UseB(l)];
            && Lines(t, InA) == xs && Lines(t, InB) == [l]
            && Lines(t, SilentA) == [] && Lines(t, SilentB) == [l]
  {
    LinesOfDels(xs);
    LinesSnoc(Dels(xs), UseB(l), InA);
    LinesSnoc(Dels(xs), UseB(l), InB);
    LinesSnoc(Dels(xs), UseB(l), SilentA);
    LinesSnoc(Dels(xs), UseB(l), SilentB);
  }

  lemma InssThenUse(xs: seq<string>, l: string)
    ensures var t := Inss(xs) + [UseA(l)];
            && Lines(t, InB) == xs && Lines(t, InA) == [l]
            && Lines(t, SilentB) == [] && Lines(t, SilentA) == [l]
  {
    LinesOfInss(xs);
    LinesSnoc(Inss(xs), UseA(l), InA);
    LinesSnoc(Inss(xs), UseA(l), InB);
    LinesSnoc(Inss(xs), UseA(l), SilentA);
    LinesSnoc(Inss(xs), UseA(l), SilentB);
  }

  /** What one turn does: it consumes a prefix of each file, and passes over only shared lines. */
  lemma LinesOfHead(a: seq<string>, b: seq<string>)
    requires a != [] && b != []
    ensures var h := Head(a, b);
            && Lines(h.steps, InA) == a[..h.i] && Lines(h.steps, InB) == b[..h.j]
            && Lines(h.steps, SilentA) == (if a[0] == b[0] || (Ahead(a, b[0]) == |a| && Ahead(b, a[0]) < |b|) then [a[0]] else [])
            && Lines(h.steps, SilentB) == (if a[0] == b[0] || Ahead(a, b[0]) < |a| then [b[0]] else [])
  {
    assert a[..1] == [a[0]] && b[..1] == [b[0]];
    DelsThenUse(a[..Ahead(a, b[0])], b[0]);
    InssThenUse(b[..Ahead(b, a[0])], a[0]);
    LinesOfOne(a[0]);
    LinesOfTwo(a[0], b[0]);
  }

  lemma LinesTurn(a: seq<string>, b: seq<string>, p: Part)
    requires a != [] && b != []
    ensures Lines(Scan(a, b), p) == Lines(Head(a, b).steps, p) + Lines(Rest(a, b), p)
  {
    LinesConcat(Head(a, b).steps, Rest(a, b), p);
  }

  lemma Glue(front: seq<string>, back: seq<string>, s: seq<string>, i: nat)
    requires i <= |s| && front == s[..i] && back == s[i..]
    ensures front + back == s
  {
  }

  /** Every line of either file is handled exactly once and in order. */
  lemma {:induction false} Accounted(a: seq<string>, b: seq<string>)
    ensures Lines(Scan(a, b), InA) == a && Lines(Scan(a, b), InB) == b
    decreases |a| + |b|
  {
    if a == [] || b == [] {
      LinesOfTail(a, b);
    } else {
      var h := Head(a, b);
      LinesTurn(a, b, InA);
      LinesTurn(a, b, InB);
      LinesOfHead(a, b);
      Accounted(a[h.i..], b[h.j..]);
      Glue(Lines(h.steps, InA), Lines(Rest(a, b), InA), a, h.i);
      Glue(Lines(h.steps, InB), Lines(Rest(a, b), InB), b, h.j);
    }
  }

  lemma {:induction false} Sides(t: seq<Step>)
    ensures Merge(Lines(t, Removed), Lines(t, SilentA), Lines(t, InA))
    ensures Merge(Lines(t, Added), Lines(t, SilentB), Lines(t, InB))
  {
    if t != [] {
      Sides(t[1..]);
      forall p: Part | Takes(p, t[0])
        ensures Lines(t, p)[0] == t[0].line && Lines(t, p)[1..] == Lines(t[1..], p)
      {
      }
    }
  }

  /** A line that is passed over in one file occurs in the other. */
  lemma {:induction false} SilentLinesAreShared(a: seq<string>, b: seq<string>)
    ensures forall l :: l in Lines(Scan(a, b), SilentA) ==> l in b
    ensures forall l :: l in Lines(Scan(a, b), SilentB) ==> l in a
    decreases |a| + |b|
  {
    if a == [] || b == [] {
      LinesOfTail(a, b);
    } else {
      var h := Head(a, b);
      LinesTurn(a, b, SilentA);
      LinesTurn(a, b, SilentB);
      LinesOfHead(a, b);
      SilentLinesAreShared(a[h.i..], b[h.j..]);
    }
  }

  // ---- the report as a reader sees it ----

  /** The reported lines carrying a mark, without the mark. */
  function Marked(out: seq<string>, mark: char): seq<string> {
    if out == [] then []
    else (if |out[0]| >= 2 && out[0][0] == mark then [out[0][2..]] else []) + Marked(out[1..], mark)
  }

  lemma {:induction false} MarkedLines(t: seq<Step>)
    ensures Marked(Report(t), '-') == Lines(t, Removed) && Marked(Report(t), '+') == Lines(t, Added)
  {
    if t != [] {
      MarkedLines(t[1..]);
      if t[0].Del? || t[0].Ins? {
        assert Report(t)[1..] == Report(t[1..]);
        assert Report(t)[0][2..] == t[0].line;
      } else {
        assert Report(t) == Report(t[1..]);
      }
    }
  }

  /** The "-" lines are an in-order part of the installed file and the "+" lines of the rendered one,
      and each line left out of the report occurs in the other file. */
  lemma ReportIsSound(a: seq<string>, b: seq<string>) returns (keptA: seq<string>, keptB: seq<string>)
    ensures Merge(Marked(Report(Scan(a, b)), '-'), keptA, a) && forall l :: l in keptA ==> l in b
    ensures Merge(Marked(Report(Scan(a, b)), '+'), keptB, b) && forall l :: l in keptB ==> l in a
    ensures keptA == Lines(Scan(a, b), SilentA) && keptB == Lines(Scan(a, b), SilentB)
  {
    var t := Scan(a, b);
    keptA, keptB := Lines(t, SilentA), Lines(t, SilentB);
    Sides(t);
    Accounted(a, b);
    MarkedLines(t);
    SilentLinesAreShared(a, b);
  }

  // ---- when the report is a diff ----

  /** A report is a diff when the unreported lines of both files are one and the same sequence. */
  ghost predicate Explains(out: seq<string>, a: seq<string>, b: seq<string>) {
    exists kept: seq<string> :: Merge(Marked(out, '-'), kept, a) && Merge(Marked(out, '+'), kept, b)
  }

  predicate Near(s: seq<string>, i: nat, x: string) {
    || (i + 1 < |s| && s[i + 1] == x)
    || (i + 2 < |s| && s[i + 2] == x)
  }

  /** No line recurs one or two places further down the other file than the place where the files differ. */
  predicate InStep(a: seq<string>, b: seq<string>) {
    forall i :: 0 <= i < |a| && i < |b| && a[i] != b[i] ==> !Near(a, i, b[i]) && !Near(b, i, a[i])
  }

  predicate NoRepeats(s: seq<string>) {
    forall i, j :: 0 <= i < j < |s| ==> s[i] != s[j]
  }

  lemma InStepTail(a: seq<string>, b: seq<string>)
    requires a != [] && b != []
    ensures InStep(a, b) <==>
            (a[0] != b[0] ==> !Near(a, 0, b[0]) && !Near(b, 0, a[0])) && InStep(a[1..], b[1..])
  {
    if (a[0] != b[0] ==> !Near(a, 0, b[0]) && !Near(b, 0, a[0])) && InStep(a[1..], b[1..]) {
      forall i | 0 < i < |a| && i < |b| && a[i] != b[i]
        ensures !Near(a, i, b[i]) && !Near(b, i, a[i])
      {
        assert a[1..][i - 1] == a[i] && b[1..][i - 1] == b[i];
      }
    }
    if InStep(a, b) {
      forall i | 0 <= i < |a[1..]| && i < |b[1..]| && a[1..][i] != b[1..][i]
        ensures !Near(a[1..], i, b[1..][i]) && !Near(b[1..], i, a[1..][i])
      {
        assert a[1..][i] == a[i + 1] && b[1..][i] == b[i + 1];
      }
    }
  }

  lemma {:induction false} InStepScan(a: seq<string>, b: seq<string>)
    requires InStep(a, b)
    ensures Lines(Scan(a, b), SilentA) == Lines(Scan(a, b), SilentB)
    decreases |a| + |b|
  {
    if a == [] || b == [] {
      LinesOfTail(a, b);
    } else {
      InStepTail(a, b);
      LinesTurn(a, b, SilentA);
      LinesTurn(a, b, SilentB);
      LinesOfHead(a, b);
      InStepScan(a[1..], b[1..]);
    }
  }

  lemma {:induction false} MergeCounts(x: seq<string>, y: seq<string>, z: seq<string>, l: string)
    requires Merge(x, y, z)
    ensures multiset(z)[l] == multiset(x)[l] + multiset(y)[l]
    decreases |z|
  {
    if z != [] {
      assert z == [z[0]] + z[1..];
      if x != [] && x[0] == z[0] && Merge(x[1..], y, z[1..]) {
        assert x == [x[0]] + x[1..];
        MergeCounts(x[1..], y, z[1..], l);
      } else {
        assert y == [y[0]] + y[1..];
        MergeCounts(x, y[1..], z[1..], l);
      }
    }
  }

  /** Where the lookahead passes over a line without its partner, that line is left out on one side only. */
  lemma {:induction false} OutOfStepLeavesAGap(a: seq<string>, b: seq<string>) returns (l: string)
    requires NoRepeats(a) && NoRepeats(b) && !InStep(a, b)
    ensures l in Lines(Scan(a, b), SilentA) <==> l !in Lines(Scan(a, b), SilentB)
    ensures l in a && l in b
    decreases |a| + |b|
  {
    InStepTail(a, b);
    var h := Head(a, b);
    LinesTurn(a, b, SilentA);
    LinesTurn(a, b, SilentB);
    LinesOfHead(a, b);
    SilentLinesAreShared(a[h.i..], b[h.j..]);
    if a[0] != b[0] && Ahead(a, b[0]) < |a| {
      l := b[0];
      assert l !in b[1..];
    } else if a[0] != b[0] && Ahead(b, a[0]) < |b| {
      l := a[0];
      assert l !in a[1..];
    } else {
      l := OutOfStepLeavesAGap(a[1..], b[1..]);
      assert l != a[0] && l != b[0];
    }
  }

  lemma SameKept(out: seq<string>, a: seq<string>, b: seq<string>, keptA: seq<string>, keptB: seq<string>, l: string)
    requires Explains(out, a, b)
    requires Merge(Marked(out, '-'), keptA, a) && Merge(Marked(out, '+'), keptB, b)
    ensures l in keptA <==> l in keptB
  {
    var kept: seq<string> :| Merge(Marked(out, '-'), kept, a) && Merge(Marked(out, '+'), kept, b);
    MergeCounts(Marked(out, '-'), kept, a, l);
    MergeCounts(Marked(out, '-'), keptA, a, l);
    MergeCounts(Marked(out, '+'), kept, b, l);
    MergeCounts(Marked(out, '+'), keptB, b, l);
    assert l in keptA <==> multiset(keptA)[l] > 0;
    assert l in keptB <==> multiset(keptB)[l] > 0;
  }

  /** Files without repeated lines: the report is a diff exactly when the lookahead never fires. */
  lemma WhenItIsADiff(a: seq<string>, b: seq<string>)
    ensures InStep(a, b) ==> Explains(Report(Scan(a, b)), a, b)
    ensures NoRepeats(a) && NoRepeats(b) && Explains(Report(Scan(a, b)), a, b) ==> InStep(a, b)
  {
    var out := Report(Scan(a, b));
    var keptA, keptB := ReportIsSound(a, b);
    if InStep(a, b) {
      InStepScan(a, b);
    } else if NoRepeats(a) && NoRepeats(b) && Explains(out, a, b) {
      var l := OutOfStepLeavesAGap(a, b);
      SameKept(out, a, b, keptA, keptB, l);
      assert false;
    }
  }

  /** A line present in both files is reported as missing from the rendered one. */
  lemma SharedLineReported(x: string, y: string)
    requires x != y
    ensures Report(Scan([x, y], [y])) == ["- " + x, "- " + y]
    ensures !Explains(Report(Scan([x, y], [y])), [x, y], [y])
  {
    var a, b := [x, y], [y];
    TurnExactly(a, b);
    assert a[1..] == [y] && b[1..] == [];
    TailExactly([y], []);
    WhenItIsADiff(a, b);
    assert Near(a, 0, b[0]);
  }

  /** With a repeated line the scan can fall out of step and still end in a diff. */
  lemma RepeatsCanRealign(x: string, y: string, z: string)
    requires x != y && y != z && x != z
    ensures !InStep([x, y], [y, z, y]) && Explains(Report(Scan([x, y], [y, z, y])), [x, y], [y, z, y])
  {
    assert Near([x, y], 0, [y, z, y][0]);
    FirstTurn(x, y, z);
    SecondTurn(y, z);
    MarkedOfThree(x, z, y);
    MergedBack(x, y, z);
    assert ["- " + x] + ["+ " + z, "+ " + y] == ["- " + x, "+ " + z, "+ " + y];
  }

  lemma FirstTurn(x: string, y: string, z: string)
    requires x != y
    ensures Report(Scan([x, y], [y, z, y])) == ["- " + x] + Report(Scan([y], [z, y]))
  {
    var a, b := [x, y], [y, z, y];
    TurnExactly(a, b);
    assert a[1..] == [y] && b[1..] == [z, y];
  }

  lemma SecondTurn(y: string, z: string)
    requires y != z
    ensures Report(Scan([y], [z, y])) == ["+ " + z, "+ " + y]
  {
    var a, b := [y], [z, y];
    TurnExactly(a, b);
    assert b[1..] == [y] && a[1..] == [];
    TailExactly([], [y]);
  }

  lemma MergedBack(x: string, y: string, z: string)
    ensures Merge([x], [y], [x, y]) && Merge([z, y], [y], [y, z, y])
  {
    assert [x, y][1..] == [y] && [x][1..] == [] && [y][1..] == [];
    assert Merge([], [y], [y]);
    assert [y, z, y][1..] == [z, y] && [z, y][1..] == [y];
    assert Merge([y], [], [y]);
    assert Merge([z, y], [], [z, y]);
  }

  lemma MarkedOfThree(x: string, z: string, y: string)
    ensures Marked(["- " + x, "+ " + z, "+ " + y], '-') == [x]
    ensures Marked(["- " + x, "+ " + z, "+ " + y], '+') == [z, y]
  {
    var out := ["- " + x, "+ " + z, "+ " + y];
    assert out[0][2..] == x && out[1][2..] == z && out[2][2..] == y;
    assert out[1..] == ["+ " + z, "+ " + y] && out[1..][1..] == ["+ " + y] && out[1..][1..][1..] == [];
    assert Marked(out[1..][1..], '+') == [y] && Marked(out[1..][1..], '-') == [];
    assert Marked(out[1..], '+') == [z, y] && Marked(out[1..], '-') == [];
  }
}

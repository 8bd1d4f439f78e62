/** The quote-aware command splitter of the explain endpoint (internal/api/elevation_explain.go:151-189). */
module SplitCommand {

  // ---- the scanner ----

  /** quote is the open quote character, or NUL outside quotes. */
  datatype State = State(parts: seq<string>, cur: string, quote: char)

  const NONE: char := '\0'

  function Flush(st: State): State {
    if st.cur != "" then st.(parts := st.parts + [st.cur], cur := "") else st
  }

  function Step(st: State, c: char): State {
    if st.quote != NONE then
      if c == st.quote then st.(quote := NONE) else st.(cur := st.cur + [c])
    else if IsQuote(c) then st.(quote := c)
    else if IsGap(c) then Flush(st)
    else st.(cur := st.cur + [c])
  }

  predicate IsQuote(c: char) { c == '\'' || c == '"' }
  predicate IsGap(c: char) { c == ' ' || c == '\t' }

  function Run(st: State, s: string): State
    decreases |s|
  {
    if s == "" then st else Run(Step(st, s[0]), s[1..])
  }

  const START := State([], "", NONE)

  function Split(s: string): seq<string> { Flush(Run(START, s)).parts }

  lemma {:induction false} RunConcat(st: State, s: string, t: string)
    ensures Run(st, s + t) == Run(Run(st, s), t)
    decreases |s|
  {
    if s == "" {
      assert s + t == t;
    } else {
      assert (s + t)[0] == s[0] && (s + t)[1..] == s[1..] + t;
      RunConcat(Step(st, s[0]), s[1..], t);
    }
  }

  /** The name is empty exactly when the line holds no word, which the caller relies on to refuse it. */
  method Command(s: string) returns (name: string, argv: seq<string>)
    ensures Split(s) == if name == "" then [] else [name] + argv
    ensures name == "" ==> argv == []
  {
    var parts: seq<string>, cur, quote := [], "", NONE;
    var i := 0;
    assert s[0..] == s;
    while i < |s|
      invariant i <= |s|
      invariant Run(State(parts, cur, quote), s[i..]) == Run(START, s)
      invariant forall p :: p in parts ==> p != ""
    {
      var c := s[i];
      assert s[i..][0] == c && s[i..][1..] == s[i + 1..];
      if quote != NONE {
        if c == quote {
          quote := NONE;
        } else {
          cur := cur + [c];
        }
      } else if c == '\'' || c == '"' {
        quote := c;
      } else if c == ' ' || c == '\t' {
        if cur != "" { parts, cur := parts + [cur], ""; }
      } else {
        cur := cur + [c];
      }
      i := i + 1;
    }
    if cur != "" { parts, cur := parts + [cur], ""; }
    if |parts| == 0 { return "", []; }
    assert parts[0] in parts;
    return parts[0], parts[1..];
  }

  // ---- what a command line is ----

  /** A line as its writer sees it: separators, bare characters, closed quotations, and possibly a
      last quotation that is never closed. */
  datatype Piece = Gap(c: char) | Bare(c: char) | Quoted(q: char, text: string) | Unclosed(q: char, text: string)

  predicate PieceOk(p: Piece) {
    match p
    case Gap(c) => c == ' ' || c == '\t'
    case Bare(c) => c != ' ' && c != '\t' && c != '\'' && c != '"'
    case Quoted(q, text) => (q == '\'' || q == '"') && q !in text
    case Unclosed(q, text) => (q == '\'' || q == '"') && q !in text
  }

  predicate LayoutOk(ps: seq<Piece>) {
    && (forall i :: 0 <= i < |ps| ==> PieceOk(ps[i]))
    && (forall i :: 0 <= i < |ps| && ps[i].Unclosed? ==> i == |ps| - 1)
  }

  function ShowPiece(p: Piece): string {
    match p
    case Gap(c) => [c]
    case Bare(c) => [c]
    case Quoted(q, text) => [q] + text + [q]
    case Unclosed(q, text) => [q] + text
  }

  function Show(ps: seq<Piece>): string {
    if ps == [] then "" else ShowPiece(ps[0]) + Show(ps[1..])
  }

  function Text(p: Piece): string {
    match p
    case Gap(c) => ""
    case Bare(c) => [c]
    case Quoted(_, text) => text
    case Unclosed(_, text) => text
  }

  /** The text between separators, empty stretches included. */
  function Stretches(ps: seq<Piece>): (r: seq<string>)
    ensures |r| > 0
  {
    if ps == [] then [""]
    else
      var r := Stretches(ps[1..]);
      if ps[0].Gap? then [""] + r else [Text(ps[0]) + r[0]] + r[1..]
  }

  function NonEmpty(ss: seq<string>): seq<string> {
    if ss == [] then [] else if ss[0] == "" then NonEmpty(ss[1..]) else [ss[0]] + NonEmpty(ss[1..])
  }

  /** The words of a line: its non-empty stretches, quotation marks removed. */
  function Words(ps: seq<Piece>): seq<string> { NonEmpty(Stretches(ps)) }

  // ---- the scanner finds exactly those words ----

  lemma {:induction false} RunQuoted(st: State, text: string)
    requires st.quote != NONE && st.quote !in text
    ensures Run(st, text) == st.(cur := st.cur + text)
    decreases |text|
  {
    if text == "" {
      assert st.cur + text == st.cur;
    } else {
      assert text[0] in text && forall c :: c in text[1..] ==> c in text;
      RunQuoted(Step(st, text[0]), text[1..]);
      assert st.cur + [text[0]] + text[1..] == st.cur + text;
    }
  }

  lemma RunPiece(st: State, p: Piece)
    requires st.quote == NONE && PieceOk(p)
    ensures Run(st, ShowPiece(p)) ==
            if p.Gap? then Flush(st)
            else if p.Unclosed? then st.(cur := st.cur + Text(p), quote := p.q)
            else st.(cur := st.cur + Text(p))
  {
    match p
    case Gap(c) => assert [c][1..] == "";
    case Bare(c) => assert [c][1..] == "";
    case Unclosed(q, text) =>
      assert ([q] + text)[1..] == text;
      RunQuoted(Step(st, q), text);
    case Quoted(q, text) =>
      assert ([q] + text + [q])[1..] == text + [q];
      RunConcat(Step(st, q), text, [q]);
      RunQuoted(Step(st, q), text);
      assert [q][1..] == "";
  }

  /** The words still to come when cur has been read of the first stretch. */
  function Finish(cur: string, ss: seq<string>): seq<string>
    requires ss != []
  {
    NonEmpty([cur + ss[0]] + ss[1..])
  }

  lemma FinishGap(cur: string, ss: seq<string>)
    requires ss != []
    ensures Finish(cur, [""] + ss) == if cur == "" then Finish("", ss) else [cur] + Finish("", ss)
  {
    assert cur + "" == cur && ([""] + ss)[1..] == ss && ([cur] + ss)[1..] == ss;
    assert ["" + ss[0]] + ss[1..] == ss by { assert "" + ss[0] == ss[0]; }
  }

  lemma FinishText(cur: string, t: string, ss: seq<string>)
    requires ss != []
    ensures Finish(cur, [t + ss[0]] + ss[1..]) == Finish(cur + t, ss)
  {
    var all := [t + ss[0]] + ss[1..];
    assert all[1..] == ss[1..] && cur + all[0] == cur + t + ss[0];
  }

  lemma FinishLast(cur: string)
    ensures Finish(cur, [""]) == if cur == "" then [] else [cur]
  {
    var none: seq<string> := [""][1..];
    assert none == [] && cur + "" == cur;
    var one := [cur + ""] + none;
    assert one == [cur] && one[1..] == [];
    assert NonEmpty(one[1..]) == [];
  }

  /** One piece in front of a line whose scan is already known. */
  lemma PieceFirst(st: State, p: Piece, line: string, ss: seq<string>)
    requires st.quote == NONE && PieceOk(p) && !p.Unclosed? && ss != []
    requires var next := Run(st, ShowPiece(p));
             Flush(Run(next, line)).parts == next.parts + Finish(next.cur, ss)
    ensures Flush(Run(st, ShowPiece(p) + line)).parts ==
            st.parts + Finish(st.cur, if p.Gap? then [""] + ss else [Text(p) + ss[0]] + ss[1..])
  {
    RunPiece(st, p);
    RunConcat(st, ShowPiece(p), line);
    if p.Gap? {
      FinishGap(st.cur, ss);
    } else {
      FinishText(st.cur, Text(p), ss);
    }
  }

  lemma UnclosedLast(st: State, p: Piece)
    requires st.quote == NONE && PieceOk(p) && p.Unclosed?
    ensures Flush(Run(st, ShowPiece(p))).parts == st.parts + Finish(st.cur, [Text(p) + ""])
  {
    RunPiece(st, p);
    assert [""][1..] == [] && [Text(p) + ""] + [] == [Text(p) + ""];
    FinishText(st.cur, Text(p), [""]);
    FinishLast(st.cur + Text(p));
  }

  lemma {:induction false} RunLayout(st: State, ps: seq<Piece>)
    requires st.quote == NONE && LayoutOk(ps)
    ensures Flush(Run(st, Show(ps))).parts == st.parts + Finish(st.cur, Stretches(ps))
    decreases |ps|
  {
    if ps == [] {
      FinishLast(st.cur);
    } else {
      var p, rest := ps[0], ps[1..];
      if p.Unclosed? {
        assert rest == [];
        assert Stretches(rest) == [""];
        var none: seq<string> := [""][1..];
        assert none == [] && [Text(p) + ""] + none == [Text(p) + ""];
        assert Show(rest) == "" && ShowPiece(p) + "" == ShowPiece(p);
        UnclosedLast(st, p);
      } else {
        RunPiece(st, p);
        RunLayout(Run(st, ShowPiece(p)), rest);
        PieceFirst(st, p, Show(rest), Stretches(rest));
      }
    }
  }

  /** Round trip: however a line is laid out, splitting it gives back its words. */
  lemma SplitShow(ps: seq<Piece>)
    requires LayoutOk(ps)
    ensures Split(Show(ps)) == Words(ps)
  {
    RunLayout(START, ps);
    var r := Stretches(ps);
    assert ["" + r[0]] + r[1..] == r by { assert "" + r[0] == r[0]; }
  }

  /** Every string is such a line. */
  function Index(s: string, q: char): (k: nat)
    ensures k <= |s| && q !in s[..k] && (k < |s| ==> s[k] == q)
  {
    if s == "" || s[0] == q then 0
    else
      var k := 1 + Index(s[1..], q);
      assert s[..k] == [s[0]] + s[1..][..k - 1];
      k
  }

  function Layout(s: string): (ps: seq<Piece>)
    decreases |s|
  {
    if s == "" then []
    else if IsGap(s[0]) then [Gap(s[0])] + Layout(s[1..])
    else if !IsQuote(s[0]) then [Bare(s[0])] + Layout(s[1..])
    else
      var k := Index(s[1..], s[0]);
      if k == |s| - 1 then [Unclosed(s[0], s[1..])]
      else [Quoted(s[0], s[1..][..k])] + Layout(s[k + 2..])
  }

  lemma {:induction false} LayoutShows(s: string)
    ensures LayoutOk(Layout(s)) && Show(Layout(s)) == s
    decreases |s|
  {
    if s != "" {
      assert s == [s[0]] + s[1..];
      if !IsQuote(s[0]) {
        LayoutShows(s[1..]);
      } else {
        var k := Index(s[1..], s[0]);
        if k == |s| - 1 {
          assert s[1..][..k] == s[1..];
          assert Layout(s)[1..] == [];
        } else {
          LayoutShows(s[k + 2..]);
          assert s == [s[0]] + s[1..][..k] + [s[0]] + s[k + 2..];
        }
      }
    }
  }

  /** Splitting a line gives ts exactly when the line can be laid out with words ts. */
  lemma SplitExactly(s: string, ts: seq<string>)
    ensures Split(s) == ts <==> exists ps :: LayoutOk(ps) && Show(ps) == s && Words(ps) == ts
  {
    LayoutShows(s);
    SplitShow(Layout(s));
    forall ps | LayoutOk(ps) && Show(ps) == s ensures Words(ps) == Split(s) {
      SplitShow(ps);
    }
  }

  // ---- which word lists can be asked for ----

  lemma {:induction false} NoEmptyWord(s: string)
    ensures "" !in Split(s)
  {
    LayoutShows(s);
    SplitShow(Layout(s));
    NonEmptyHasNone(Stretches(Layout(s)));
  }

  lemma {:induction false} NonEmptyHasNone(ss: seq<string>)
    ensures "" !in NonEmpty(ss)
  {
    if ss != [] { NonEmptyHasNone(ss[1..]); }
  }

  /** Appending a separator and a second line, where the first one leaves no quotation open,
      splits into the words of both. */
  lemma SplitDistributes(s: string, gap: char, t: string)
    requires IsGap(gap) && Run(START, s).quote == NONE
    ensures Split(s + [gap] + t) == Split(s) + Split(t)
  {
    var st := Run(START, s);
    RunConcat(START, s + [gap], t);
    RunConcat(START, s, [gap]);
    assert [gap][1..] == "";
    assert Run(st, [gap]) == Flush(st);
    var words := Flush(st).parts;
    assert Flush(st) == START.(parts := words + []);
    RunFrom(words, START, t);
  }

  /** Words already split off do not influence the rest of the scan. */
  lemma {:induction false} RunFrom(before: seq<string>, st: State, s: string)
    ensures Run(st.(parts := before + st.parts), s) == Run(st, s).(parts := before + Run(st, s).parts)
    decreases |s|
  {
    if s != "" {
      var next := Step(st, s[0]);
      assert before + (st.parts + [st.cur]) == before + st.parts + [st.cur];
      assert Step(st.(parts := before + st.parts), s[0]) == next.(parts := before + next.parts);
      RunFrom(before, next, s[1..]);
    }
  }

  /** A word of any characters, each one quoted by the mark it is not. */
  function QuoteAll(t: string): seq<Piece> {
    if t == "" then []
    else [Quoted(if t[0] == '\'' then '"' else '\'', [t[0]])] + QuoteAll(t[1..])
  }

  function Line(ts: seq<string>): seq<Piece> {
    if ts == [] then [] else QuoteAll(ts[0]) + [Gap(' ')] + Line(ts[1..])
  }

  lemma {:induction false} LineOk(ts: seq<string>)
    ensures LayoutOk(Line(ts)) && forall i :: 0 <= i < |Line(ts)| ==> !Line(ts)[i].Unclosed?
  {
    if ts != [] {
      QuoteAllOk(ts[0]);
      LineOk(ts[1..]);
    }
  }

  lemma {:induction false} QuoteAllOk(t: string)
    ensures forall i :: 0 <= i < |QuoteAll(t)| ==> PieceOk(QuoteAll(t)[i]) && QuoteAll(t)[i].Quoted?
  {
    if t != "" { QuoteAllOk(t[1..]); }
  }

  lemma {:induction false} StretchesOfWord(t: string, ps: seq<Piece>)
    ensures Stretches(QuoteAll(t) + [Gap(' ')] + ps) == [t] + Stretches(ps)
  {
    var all := QuoteAll(t) + [Gap(' ')] + ps;
    if t == "" {
      assert all == [Gap(' ')] + ps && all[1..] == ps;
    } else {
      StretchesOfWord(t[1..], ps);
      assert all[1..] == QuoteAll(t[1..]) + [Gap(' ')] + ps;
      assert t == [t[0]] + t[1..];
    }
  }

  lemma {:induction false} WordsOfLine(ts: seq<string>)
    requires "" !in ts
    ensures Words(Line(ts)) == ts
  {
    if ts != [] {
      assert ts[0] in ts;
      StretchesOfWord(ts[0], Line(ts[1..]));
      WordsOfLine(ts[1..]);
      var r := [ts[0]] + Stretches(Line(ts[1..]));
      assert r[1..] == Stretches(Line(ts[1..]));
    }
  }

  /** Any list of non-empty words can be written down, and nothing else comes out of a split. */
  lemma Writable(ts: seq<string>)
    ensures (exists s :: Split(s) == ts) <==> "" !in ts
  {
    if "" !in ts {
      LineOk(ts);
      WordsOfLine(ts);
      SplitShow(Line(ts));
    }
    if s :| Split(s) == ts {
      NoEmptyWord(s);
    }
  }
}

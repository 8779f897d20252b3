/** Lines typed one after the other into the command interpreter: how an argument of an earlier line
    comes back in a later one. */
module CommandRepeat {
  import opened Util
  import opened CommandLine
  import opened CommandTable

  /** `comm_exec_command` on what the last line has left: `argv[1]` is read even when the line has
      only one word. */
  method ExecLine(d: CommData, t: Table) returns (r: CommandTable.Outcome)
    requires d.Valid() && t.Valid() && d.argc <= ARGV_SIZE && d.argv[0] <= TEMP_SIZE && d.argv[1] <= TEMP_SIZE
    ensures r ==
      if d.argc == 0 then NoArguments
      else Dispatch(t.cmds[..], CString(d.temp[..], d.argv[0]), Some(CString(d.temp[..], d.argv[1])))
  {
    var a0, a1 := CString(d.temp[..], d.argv[0]), CString(d.temp[..], d.argv[1]);
    r := t.Exec(if d.argc == 0 then [] else if d.argc == 1 then [a0] else [a0, a1], Some(a1));
  }

  lemma {:induction false} SpansSkip(text: string, i: nat, j: nat)
    requires i <= j <= |text| && forall k :: i <= k < j ==> Blank(text[k])
    ensures Spans(text, i) == Spans(text, j)
    decreases j - i
  {
    if i < j {
      SpansSkip(text, i + 1, j);
    }
  }

  /** Blanks and a token: the scan goes on behind it. */
  lemma SpansTake(text: string, i: nat, gap: string, token: string)
    requires IsBlank(gap) && IsToken(token) && NUL !in text
    requires var j, k := i + |gap|, i + |gap| + |token|;
      && k <= |text| && text[i..j] == gap && text[j..k] == token
      && (k < |text| ==> Blank(text[k]))
    ensures var j, k := i + |gap|, i + |gap| + |token|;
      Spans(text, i) == [Span(j, k)] + Spans(text, k)
  {
    var j, k := i + |gap|, i + |gap| + |token|;
    assert forall x :: i <= x < j ==> text[x] == text[i..j][x - i];
    assert forall x :: j <= x < k ==> text[x] == text[j..k][x - j];
    SpansSkip(text, i, j);
    assert RunEnd(text, j) == k;
  }

  /** Where the second word of a line begins. */
  lemma SecondStart(a: string, b: string, gaps: seq<string>)
    requires Separated([a, b], gaps)
    ensures var s := Spans(Render([a, b], gaps), 0);
      |s| == 2 && s[1].start == |gaps[0] + a + gaps[1]|
  {
    hide Spans, RunEnd;
    var text := Render([a, b], gaps);
    RenderTwo(a, b, gaps);
    RenderClean([a, b], gaps);
    assert IsToken([a, b][0]) && IsToken([a, b][1]);
    var j := |gaps[0]| + |a|;
    var l := j + |gaps[1]| + |b|;
    assert text[l..] == gaps[2] && text[j] == gaps[1][0];
    assert forall x :: l <= x < |text| ==> text[x] == text[l..][x - l];
    SpansTake(text, 0, gaps[0], a);
    SpansTake(text, j, gaps[1], b);
    SpansSkip(text, l, |text|);
    SpansEnd(text);
  }

  lemma SpansEnd(text: string)
    ensures Spans(text, |text|) == []
  {
  }

  lemma RenderTwo(a: string, b: string, gaps: seq<string>)
    requires |gaps| == 3
    ensures Render([a, b], gaps) == gaps[0] + a + gaps[1] + b + gaps[2]
  {
    assert [a, b][1..] == [b] && [b][1..] == [];
    assert Render([b], gaps[1..]) == gaps[1] + b + Render([], gaps[1..][1..]);
  }

  predicate Typeable(tokens: seq<string>, gaps: seq<string>, ending: string) {
    && Separated(tokens, gaps)
    && Ends(Render(tokens, gaps), ending) && |Render(tokens, gaps) + ending| <= TEMP_SIZE
  }

  lemma SecondPointer(line: string, was: string, before: seq<nat>, memory: string, argv: seq<nat>)
    requires Parsed(line, was, before, memory, argv) && |Spans(line, 0)| == 2
    ensures |argv| == ARGV_SIZE && argv[1] == Spans(line, 0)[1].start
  {
  }

  /** After a line of two words, a line of one word that ends before the place where the second word
      began is executed as if that second word had been typed again. */
  method SecondWordComesBack(d: CommData, t: Table, a: string, b: string, c: string,
      gaps: seq<string>, later: seq<string>, ending: string, more: string) returns (r: CommandTable.Outcome)
    requires d.Valid() && t.Valid() && Typeable([a, b], gaps, ending) && Typeable([c], later, ending)
    requires |Render([c], later)| < |gaps[0] + a + gaps[1]|
    modifies d, d.temp, d.argv
    ensures t.cmds[..] == old(t.cmds[..])
    ensures r == Dispatch(t.cmds[..], c, Some(b))
  {
    ghost var line, was, before := Render([a, b], gaps), d.temp[..], d.argv[..];
    hide Render, Separated, Spans, CString, Dispatch, Parsed;
    SecondStart(a, b, gaps);
    TypeAndParse(d, [a, b], gaps, ending, more);
    SecondPointer(line, was, before, d.temp[..], d.argv[..]);
    assert CString(d.temp[..], d.argv[1]) == [a, b][1];
    TypeAndParse(d, [c], later, ending, more);
    assert CString(d.temp[..], d.argv[0]) == [c][0];
    r := ExecLine(d, t);
  }

  /** A concrete case: with one command "w" of group "g" registered, typing "g w" and then "g" runs
      the command again; the line "g" alone, typed first, makes the source read a null pointer. */
  method TypedAgain(d: CommData, w: Command) returns (r: CommandTable.Outcome)
    requires d.Valid() && w.id == 0 && w.nogroup == 0 && w.name == Some("w") && w.group == Some("g")
    modifies d, d.temp, d.argv
    ensures r == Ran(0)
    ensures Dispatch(Register(Empty(), w).0, "g", None) == Crashed
  {
    var t := new Table();
    var code := t.RegisterCommand(w);
    OnlyCommand(w);
    ShortLines();
    r := SecondWordComesBack(d, t, "g", "w", "g", ["", " ", ""], ["", ""], "\n", "");
  }

  lemma ShortLines()
    ensures Typeable(["g", "w"], ["", " ", ""], "\n") && Typeable(["g"], ["", ""], "\n")
    ensures |Render(["g"], ["", ""])| < |"" + "g" + " "|
  {
    RenderTwo("g", "w", ["", " ", ""]);
    assert ["g"][1..] == [] && Render(["g"], ["", ""]) == "" + "g" + Render([], ["", ""][1..]);
  }

  lemma OnlyCommand(w: Command)
    requires w.id == 0 && w.nogroup == 0 && w.name == Some("w") && w.group == Some("g")
    ensures var slots := Register(Empty(), w).0;
      Dispatch(slots, "g", Some("w")) == Ran(0) && Dispatch(slots, "g", None) == Crashed
  {
    hide Dispatch;
    assert Empty()[0] == null;
    var slots := Register(Empty(), w).0;
    MatchIs(Empty(), null, 0);
    assert slots[0] == w;
    assert Judge(slots[0], "g", Some("w")) == Hit;
    CrashAt(slots, "g", None, 0);
  }
}

/** Line input and the in-place tokenizer of demo-dh/common/comm_cmd.c lines 60-127. */
module CommandLine {
  const TEMP_SIZE: nat := 4096
  const ARGV_SIZE: nat := 2048
  const NUL: char := '\0'

  predicate Blank(c: char) { c == ' ' || c == '\t' }

  // ----- What the line buffer keeps -----

  /** The characters before the first newline of the input. */
  function FirstLine(input: string): (r: string)
    requires '\n' in input
    ensures |r| < |input| && input[|r|] == '\n' && r == input[..|r|] && '\n' !in r
  {
    if input[0] == '\n' then "" else [input[0]] + FirstLine(input[1..])
  }

  /** How many characters are in the wrapping buffer after `n` have been stored. */
  function Fill(n: nat): nat {
    if n == 0 then 0 else (n - 1) % TEMP_SIZE + 1
  }

  /** The last characters of the line, as many as the buffer holds since it last wrapped. */
  function Window(line: string): (r: string)
    ensures |r| == Fill(|line|) <= |line|
  {
    line[|line| - Fill(|line|)..]
  }

  function DropReturn(s: string): string {
    if s != "" && s[|s| - 1] == '\r' then s[..|s| - 1] else s
  }

  /** The terminating NUL would be stored just past the end of the buffer. */
  predicate Overflows(line: string) {
    line != "" && |line| % TEMP_SIZE == 0 && line[|line| - 1] != '\r'
  }

  // ----- Tokens -----

  /** The end of the run of non-blank characters from `i` on. */
  function RunEnd(text: string, i: nat): (e: nat)
    requires i <= |text|
    ensures i <= e <= |text|
    ensures forall j :: i <= j < e ==> !Blank(text[j])
    ensures e < |text| ==> Blank(text[e])
    decreases |text| - i
  {
    if i == |text| || Blank(text[i]) then i else RunEnd(text, i + 1)
  }

  datatype Span = Span(start: nat, end: nat)

  /** The tokens the scan finds from index `i` on; it gives up at a NUL between tokens. */
  function Spans(text: string, i: nat): (r: seq<Span>)
    requires i <= |text|
    ensures forall k :: 0 <= k < |r| ==> i <= r[k].start < r[k].end <= |text|
    decreases |text| - i
  {
    if i == |text| || text[i] == NUL then []
    else if Blank(text[i]) then Spans(text, i + 1)
    else [Span(i, RunEnd(text, i))] + Spans(text, RunEnd(text, i))
  }

  /** A blank that ends a token. */
  predicate EndsToken(text: string, j: nat) {
    0 < j < |text| && Blank(text[j]) && !Blank(text[j - 1])
  }

  /** The string a pointer to index `p` denotes. */
  function CString(memory: string, p: nat): string
    requires p <= |memory|
    decreases |memory| - p
  {
    if p == |memory| || memory[p] == NUL then "" else [memory[p]] + CString(memory, p + 1)
  }

  // ----- The code -----

  class CommData {
    const temp: array<char>
    const argv: array<nat>   // pointers into `temp`, as indices
    var argc: nat
    var tmpc: nat

    ghost predicate Valid()
      reads this
    {
      temp.Length == TEMP_SIZE && argv.Length == ARGV_SIZE && tmpc <= TEMP_SIZE
    }

    constructor ()
      ensures Valid() && argc == 0 && tmpc == 0 && fresh(temp) && fresh(argv)
    {
      temp, argv := new char[TEMP_SIZE], new nat[ARGV_SIZE];
      argc, tmpc := 0, 0;
    }

    /** Store a character, going back to the start of a full buffer. */
    method StoreChar(cnt: nat, c: char) returns (cnt': nat)
      requires Valid() && cnt <= TEMP_SIZE
      modifies temp
      ensures cnt' == (if cnt == TEMP_SIZE then 1 else cnt + 1)
      ensures temp[..cnt'] == (if cnt == TEMP_SIZE then [c] else old(temp[..cnt]) + [c])
      ensures temp[cnt'..] == old(temp[cnt'..])
    {
      cnt' := cnt;
      if cnt' >= TEMP_SIZE {
        cnt' := 0;
      }
      temp[cnt'] := c;
      cnt' := cnt' + 1;
    }

    /** Store the characters up to the newline. */
    method StoreLine(input: string) returns (cnt: nat, used: nat)
      requires Valid() && '\n' in input
      modifies temp
      ensures used == |FirstLine(input)| && cnt == Fill(used) <= TEMP_SIZE
      ensures temp[..cnt] == Window(FirstLine(input))
      ensures used <= TEMP_SIZE ==> cnt == used && temp[used..] == old(temp[used..])
    {
      hide Fill, Window, FirstLine;
      cnt, used := 0, 0;
      NothingStored();
      assert input[..0] == "";
      while input[used] != '\n'
        invariant 0 <= used < |input| && '\n' !in input[..used]
        invariant cnt == Fill(used) <= TEMP_SIZE
        invariant temp[..cnt] == Window(input[..used])
        invariant used <= TEMP_SIZE ==> cnt == used && temp[used..] == old(temp[used..])
        decreases |input| - used
      {
        LineGoesOn(input, used);
        FillGrows(used);
        WindowGrows(input[..used], input[used]);
        assert input[..used + 1] == input[..used] + [input[used]];
        cnt := StoreChar(cnt, input[used]);
        used := used + 1;
      }
      LineEnds(input, used);
    }

    /** Read one line.  `stored` is false where the source would write past the buffer. */
    method GetCommand(input: string) returns (stored: bool, used: nat)
      requires Valid() && '\n' in input
      modifies this`tmpc, temp
      ensures Valid()
      ensures used == |FirstLine(input)| + 1
      ensures stored <==> !Overflows(FirstLine(input))
      ensures stored ==>
        && tmpc < TEMP_SIZE && temp[tmpc] == NUL
        && temp[..tmpc] == DropReturn(Window(FirstLine(input)))
      ensures stored && |FirstLine(input)| <= TEMP_SIZE ==> temp[tmpc + 1..] == old(temp[..])[tmpc + 1..]
    {
      hide Fill, FirstLine;
      var cnt;
      ghost var was := temp[..];
      cnt, used := StoreLine(input);
      ghost var line := FirstLine(input);
      if used <= TEMP_SIZE {
        forall k | used <= k < TEMP_SIZE
          ensures temp[k] == was[k]
        {
          assert temp[used..][k - used] == was[used..][k - used];
        }
      }
      FillGrows(used);
      used := used + 1;
      assert cnt > 0 ==> temp[cnt - 1] == temp[..cnt][cnt - 1] == line[|line| - 1];
      if cnt > 0 && temp[cnt - 1] == '\r' {
        cnt := cnt - 1;
      }
      if cnt >= TEMP_SIZE {
        return false, used;
      }
      ghost var kept := temp[..cnt];
      temp[cnt] := NUL;
      assert temp[..cnt] == kept;
      tmpc := cnt;
      stored := true;
    }

    /** The inner loop: go to the end of the token and replace the blank there by a NUL. */
    method FinishToken(ghost text: string, start: nat) returns (tmpi: nat)
      requires Valid() && tmpc == |text| && start < tmpc && !Blank(text[start])
      requires temp[..tmpc] == Marked(text, start)
      modifies temp
      ensures start < tmpi <= tmpc
      ensures tmpi == (if RunEnd(text, start) < tmpc then RunEnd(text, start) + 1 else tmpc)
      ensures temp[..tmpc] == Marked(text, tmpi) && temp[tmpc..] == old(temp[tmpc..])
    {
      tmpi := start;
      while tmpi < tmpc
        invariant start <= tmpi <= tmpc
        invariant RunEnd(text, tmpi) == RunEnd(text, start)
        invariant temp[..tmpc] == Marked(text, tmpi) && temp[tmpc..] == old(temp[tmpc..])
      {
        assert temp[tmpi] == temp[..tmpc][tmpi] == text[tmpi];
        MarkNext(text, tmpi);
        if Blank(temp[tmpi]) {
          assert start < tmpi && !Blank(text[tmpi - 1]);
          temp[tmpi] := NUL;
          tmpi := tmpi + 1;
          return;
        }
        tmpi := tmpi + 1;
      }
    }

    /** The scan has reached `tmpi` with the tokens `done`.  Each of them took at least one character
        and, but for the last, a blank: that is why the pointers fit.  The other pointers are as before. */
    ghost predicate Scanned(text: string, was: seq<nat>, done: seq<Span>, argi: nat, tmpi: nat)
      reads this, argv, temp
    {
      && Valid() && tmpc == |text| && tmpi <= tmpc
      && |done| == argi <= ARGV_SIZE && done + Spans(text, tmpi) == Spans(text, 0)
      && (tmpi == 0 || tmpi == tmpc || Blank(text[tmpi - 1]))
      && (forall k :: 0 <= k < argi ==> done[k].end < tmpi || tmpi == tmpc)
      && (2 * argi <= tmpi || (tmpi == tmpc && 2 * argi <= tmpi + 1))
      && (forall k :: 0 <= k < argi ==> argv[k] == done[k].start)
      && |was| == ARGV_SIZE && (forall k :: argi <= k < ARGV_SIZE ==> argv[k] == was[k])
      && temp[..tmpc] == Marked(text, tmpi)
    }

    lemma SkipBlank(text: string, was: seq<nat>, done: seq<Span>, argi: nat, tmpi: nat)
      requires Scanned(text, was, done, argi, tmpi) && tmpi < tmpc && Blank(temp[tmpi])
      ensures Scanned(text, was, done, argi, tmpi + 1)
    {
      hide Spans, Marked, EndsToken;
      assert temp[tmpi] == temp[..tmpc][tmpi];
      MarkedAhead(text, tmpi);
      SpansStep(text, tmpi);
      BlankAgain(text, tmpi);
    }

    lemma ScanOver(text: string, was: seq<nat>, done: seq<Span>, argi: nat, tmpi: nat)
      requires Scanned(text, was, done, argi, tmpi) && (tmpi < tmpc ==> temp[tmpi] == NUL)
      ensures done == Spans(text, 0) && Cut(text, done, temp[..tmpc])
      ensures argi == |done| <= ARGV_SIZE && forall k :: 0 <= k < argi ==> argv[k] == done[k].start
      ensures |was| == ARGV_SIZE && forall k :: argi <= k < ARGV_SIZE ==> argv[k] == was[k]
    {
      hide Spans, Marked, Cut;
      if tmpi < tmpc {
        assert temp[tmpi] == temp[..tmpc][tmpi];
        MarkedAhead(text, tmpi);
      }
      SpansStep(text, tmpi);
      assert done + [] == done;
      MarkedIsCut(text, tmpi);
    }

    /** One pass of the outer loop that finds a token. */
    method TakeToken(ghost text: string, ghost was: seq<nat>, ghost done: seq<Span>, argi: nat, tmpi: nat)
        returns (argi': nat, tmpi': nat, ghost done': seq<Span>)
      requires Scanned(text, was, done, argi, tmpi)
      requires tmpi < tmpc && temp[tmpi] != NUL && !Blank(temp[tmpi])
      modifies argv, temp
      ensures Scanned(text, was, done', argi', tmpi') && tmpi < tmpi'
      ensures temp[tmpc..] == old(temp[tmpc..])
    {
      hide Spans, Marked, EndsToken;
      assert temp[tmpi] == temp[..tmpc][tmpi];
      MarkedAhead(text, tmpi);
      SpansStep(text, tmpi);
      argv[argi] := tmpi;
      argi' := argi + 1;
      ghost var span := Span(tmpi, RunEnd(text, tmpi));
      tmpi' := FinishToken(text, tmpi);
      done' := done + [span];
      SpansAssociate(done, span, Spans(text, tmpi'));
    }

    /** Cut the line into tokens in place. */
    method ParseCommand()
      requires Valid()
      modifies this`argc, argv, temp
      ensures Valid() && argc <= ARGV_SIZE
      ensures var text, spans := old(temp[..tmpc]), Spans(old(temp[..tmpc]), 0);
        && argc == |spans|
        && (forall k :: 0 <= k < argc ==> argv[k] == spans[k].start)
        && temp[tmpc..] == old(temp[tmpc..])
        && Cut(text, spans, temp[..tmpc])
      ensures forall k :: argc <= k < ARGV_SIZE ==> argv[k] == old(argv[k])
    {
      hide Spans, Marked, EndsToken, Cut;
      ghost var text := temp[..tmpc];
      ghost var was, done := argv[..], [];
      MarkedNothing(text);
      var argi, tmpi := 0, 0;
      while tmpi < tmpc && temp[tmpi] != NUL
        invariant Scanned(text, was, done, argi, tmpi)
        invariant temp[tmpc..] == old(temp[tmpc..])
        decreases tmpc - tmpi
      {
        if Blank(temp[tmpi]) {
          SkipBlank(text, was, done, argi, tmpi);
          tmpi := tmpi + 1;
        } else {
          argi, tmpi, done := TakeToken(text, was, done, argi, tmpi);
        }
      }
      ScanOver(text, was, done, argi, tmpi);
      argc := argi;
    }
  }

  lemma SpansAssociate(done: seq<Span>, span: Span, rest: seq<Span>)
    ensures done + ([span] + rest) == done + [span] + rest
  {
  }

  /** The text with the blanks that end tokens, among its first `n` characters, replaced. */
  function Marked(text: string, n: nat): (r: string)
    ensures |r| == |text|
  {
    seq(|text|, j requires 0 <= j < |text| => if j < n && EndsToken(text, j) then NUL else text[j])
  }

  lemma MarkedNothing(text: string)
    ensures Marked(text, 0) == text
  {
  }

  lemma MarkedAhead(text: string, n: nat)
    requires n < |text|
    ensures Marked(text, n)[n] == text[n]
  {
  }

  lemma BlankAgain(text: string, n: nat)
    requires n < |text| && (n == 0 || Blank(text[n - 1]))
    ensures Marked(text, n + 1) == Marked(text, n)
  {
  }

  lemma SpansStep(text: string, i: nat)
    requires i <= |text|
    ensures Spans(text, i) ==
      if i == |text| || text[i] == NUL then []
      else if Blank(text[i]) then Spans(text, i + 1)
      else
        var e := RunEnd(text, i);
        [Span(i, e)] + Spans(text, if e < |text| then e + 1 else e)
  {
  }

  lemma MarkNext(text: string, n: nat)
    requires n < |text|
    ensures Marked(text, n + 1) == if EndsToken(text, n) then Marked(text, n)[n := NUL] else Marked(text, n)
  {
  }

  /** Memory in which every span is unchanged and followed by a NUL or the end of the text, and
      nothing but NULs has been written. */
  predicate Cut(text: string, spans: seq<Span>, memory: string) {
    && |memory| == |text|
    && (forall j :: 0 <= j < |text| ==> memory[j] == NUL || memory[j] == text[j])
    && (forall s :: s in spans ==>
          && s.start <= s.end <= |text| && memory[s.start..s.end] == text[s.start..s.end]
          && (s.end < |text| ==> memory[s.end] == NUL))
  }

  lemma MarkedIsCut(text: string, n: nat)
    requires n <= |text|
    requires forall s :: s in Spans(text, 0) ==> s.end < n || n == |text|
    ensures Cut(text, Spans(text, 0), Marked(text, n))
  {
    hide Spans;
    SpansAreRuns(text, 0);
    forall s | s in Spans(text, 0)
      ensures Marked(text, n)[s.start..s.end] == text[s.start..s.end]
    {
      forall j | s.start <= j < s.end
        ensures Marked(text, n)[j] == text[j]
      {
        assert !EndsToken(text, j);
      }
    }
  }

  lemma LineGoesOn(input: string, k: nat)
    requires '\n' in input && k < |input| && '\n' !in input[..k]
    requires input[k] != '\n'
    ensures k + 1 < |input| && '\n' !in input[..k + 1]
  {
  }

  lemma {:induction false} LineEnds(input: string, k: nat)
    requires '\n' in input && k < |input| && '\n' !in input[..k] && input[k] == '\n'
    ensures FirstLine(input) == input[..k]
  {
    var r := FirstLine(input);
    assert forall j :: 0 <= j < k ==> input[..k][j] != '\n';
    assert forall j :: 0 <= j < |r| ==> r[j] != '\n' && r[j] == input[j];
    assert |r| == k;
  }

  lemma NothingStored()
    ensures Fill(0) == 0 && Window("") == ""
  {
  }

  /** The window is what is left when as many whole buffers as possible, but not the whole line, have
      been taken off the front. */
  lemma WindowExactly(line: string, n: nat)
    requires line != "" && n * TEMP_SIZE < |line| <= (n + 1) * TEMP_SIZE
    ensures Window(line) == line[n * TEMP_SIZE..]
  {
    FillExactly(|line|, n);
  }

  lemma FillExactly(k: nat, n: nat)
    requires n * TEMP_SIZE < k <= (n + 1) * TEMP_SIZE
    ensures Fill(k) == k - n * TEMP_SIZE
  {
    var r := k - 1 - n * TEMP_SIZE;
    assert k - 1 == n * TEMP_SIZE + r && 0 <= r < TEMP_SIZE;
    assert (n * TEMP_SIZE + r) % TEMP_SIZE == r;
  }

  lemma WindowGrows(line: string, c: char)
    ensures Window(line + [c]) == if Fill(|line|) == TEMP_SIZE then [c] else Window(line) + [c]
  {
    FillGrows(|line|);
  }

  lemma FillGrows(n: nat)
    ensures Fill(n + 1) == if Fill(n) == TEMP_SIZE then 1 else Fill(n) + 1
    ensures Fill(n) == TEMP_SIZE <==> n > 0 && n % TEMP_SIZE == 0
    ensures Fill(n) == 0 <==> n == 0
  {
  }

  /** Each span is a run of non-blanks that a blank or the end of the line follows. */
  lemma {:induction false} SpansAreRuns(text: string, i: nat)
    requires i <= |text|
    ensures forall s :: s in Spans(text, i) ==> s.end < |text| ==> EndsToken(text, s.end)
    ensures forall s, j :: s in Spans(text, i) && s.start <= j < s.end ==> !Blank(text[j])
    decreases |text| - i
  {
    if i == |text| || text[i] == NUL {
    } else if Blank(text[i]) {
      SpansAreRuns(text, i + 1);
    } else {
      SpansAreRuns(text, RunEnd(text, i));
    }
  }

  // ----- The tokens are the maximal runs of non-blank characters -----

  predicate MaximalRun(text: string, start: nat, end: nat) {
    && start < end <= |text|
    && (forall j :: start <= j < end ==> !Blank(text[j]))
    && (start > 0 ==> Blank(text[start - 1]))
    && (end < |text| ==> Blank(text[end]))
  }

  /** The maximal run that begins at a non-blank after a blank is the only one to begin before its
      end. */
  lemma RunFrom(text: string, i: nat, start: nat, end: nat)
    requires i < |text| && !Blank(text[i]) && (i == 0 || Blank(text[i - 1]))
    ensures MaximalRun(text, start, end) && i <= start <= RunEnd(text, i) && start < |text| && !Blank(text[start]) ==>
      Span(start, end) == Span(i, RunEnd(text, i))
    ensures MaximalRun(text, i, RunEnd(text, i))
    ensures MaximalRun(text, start, end) ==> start < |text| && !Blank(text[start])
  {
  }

  /** On a line without NUL the scan finds all maximal runs and nothing else, from left to right. */
  lemma {:induction false} SpansExact(text: string, i: nat, start: nat, end: nat)
    requires NUL !in text && i <= |text|
    requires i == 0 || i == |text| || Blank(text[i]) || Blank(text[i - 1])
    ensures Span(start, end) in Spans(text, i) <==> i <= start && MaximalRun(text, start, end)
    ensures forall j, k :: 0 <= j < k < |Spans(text, i)| ==> Spans(text, i)[j].end < Spans(text, i)[k].start
    decreases |text| - i
  {
    if i == |text| {
    } else if Blank(text[i]) {
      SpansExact(text, i + 1, start, end);
    } else {
      hide MaximalRun;
      var e := RunEnd(text, i);
      SpansExact(text, e, start, end);
      RunFrom(text, i, start, end);
      if e < |text| {
        assert Spans(text, e) == if text[e] == NUL then [] else Spans(text, e + 1);
      }
    }
  }

  /** A NUL between tokens ends the line: what is behind it is not looked at. */
  lemma {:induction false} SpansStopAtNul(text: string, rest: string, i: nat)
    requires i <= |text| && NUL !in text && (text == "" || Blank(text[|text| - 1]))
    ensures Spans(text + [NUL] + rest, i) == Spans(text, i)
    decreases |text| - i
  {
    var all := text + [NUL] + rest;
    if i < |text| {
      assert all[i] == text[i];
      if Blank(text[i]) {
        SpansStopAtNul(text, rest, i + 1);
      } else {
        SameRun(text, all, i);
        SpansStopAtNul(text, rest, RunEnd(text, i));
      }
    }
  }

  lemma {:induction false} SameRun(text: string, all: string, i: nat)
    requires i < |text| <= |all| && all[..|text|] == text && Blank(text[|text| - 1])
    ensures RunEnd(all, i) == RunEnd(text, i) < |text|
    decreases |text| - i
  {
    assert all[i] == text[i];
    if !Blank(text[i]) {
      SameRun(text, all, i + 1);
    }
  }

  // ----- The tokens as strings -----

  /** The words of a line, taken off its front one by one. */
  function Words(text: string): (r: seq<string>)
    ensures forall k :: 0 <= k < |r| ==> r[k] != ""
  {
    if text == "" then []
    else if Blank(text[0]) then Words(text[1..])
    else [text[..RunEnd(text, 0)]] + Words(text[RunEnd(text, 0)..])
  }

  lemma {:induction false} RunEndShift(text: string, i: nat, j: nat)
    requires i <= j <= |text|
    ensures RunEnd(text[i..], j - i) == RunEnd(text, j) - i
    decreases |text| - j
  {
    if j < |text| && !Blank(text[j]) {
      RunEndShift(text, i, j + 1);
    }
  }

  /** The spans of the text denote the words. */
  predicate Denote(text: string, spans: seq<Span>, words: seq<string>) {
    && |spans| == |words|
    && forall k :: 0 <= k < |spans| ==>
         && spans[k].start <= spans[k].end <= |text|
         && text[spans[k].start..spans[k].end] == words[k]
  }

  lemma {:induction false} SpansAreWords(text: string, i: nat)
    requires NUL !in text && i <= |text|
    ensures Denote(text, Spans(text, i), Words(text[i..]))
    decreases |text| - i
  {
    hide Denote;
    if i == |text| {
      DenoteNothing(text);
    } else if Blank(text[i]) {
      SpansAreWords(text, i + 1);
      assert text[i..][1..] == text[i + 1..];
    } else {
      var e := RunEnd(text, i);
      SpansAreWords(text, e);
      FirstWord(text, i);
      DenoteFirst(text, i, e, Spans(text, e), Words(text[e..]));
    }
  }

  lemma DenoteNothing(text: string)
    ensures Denote(text, [], [])
  {
  }

  lemma DenoteFirst(text: string, i: nat, e: nat, spans: seq<Span>, words: seq<string>)
    requires i <= e <= |text| && Denote(text, spans, words)
    ensures Denote(text, [Span(i, e)] + spans, [text[i..e]] + words)
  {
  }

  lemma FirstWord(text: string, i: nat)
    requires i < |text| && !Blank(text[i])
    ensures var e := RunEnd(text, i); Words(text[i..]) == [text[i..e]] + Words(text[e..])
  {
    var rest, e := text[i..], RunEnd(text, i);
    RunEndShift(text, i, i);
    assert rest[..e - i] == text[i..e] && rest[e - i..] == text[e..];
  }

  /** Memory that shows `word` at `p`, followed by a NUL. */
  lemma {:induction false} CStringIs(memory: string, p: nat, word: string)
    requires p + |word| < |memory| && memory[p..p + |word|] == word && NUL !in word
    requires memory[p + |word|] == NUL
    ensures CString(memory, p) == word
    decreases |word|
  {
    if word != "" {
      assert memory[p] == word[0];
      assert memory[p + 1..p + 1 + |word[1..]|] == memory[p..p + |word|][1..];
      CStringIs(memory, p + 1, word[1..]);
      assert word == [word[0]] + word[1..];
    }
  }

  /** What `ParseCommand` leaves behind: the pointers, read as C strings, are the words. */
  lemma PointersAreWords(text: string, memory: string, k: nat)
    requires NUL !in text && |text| < |memory| && memory[|text|] == NUL
    requires Cut(text, Spans(text, 0), memory[..|text|])
    requires k < |Spans(text, 0)|
    ensures |Words(text)| == |Spans(text, 0)|
    ensures Spans(text, 0)[k].start <= |text|
    ensures CString(memory, Spans(text, 0)[k].start) == Words(text)[k]
  {
    hide Words, Spans, CString;
    var s := Spans(text, 0)[k];
    assert s in Spans(text, 0);
    SpansAreWords(text, 0);
    assert text[0..] == text;
    var word := text[s.start..s.end];
    assert memory[s.start..s.end] == memory[..|text|][s.start..s.end] == word;
    assert s.end < |text| ==> memory[s.end] == memory[..|text|][s.end];
    CStringIs(memory, s.start, word);
  }

  // ----- Rendering and reading back -----

  predicate IsBlank(s: string) { forall j :: 0 <= j < |s| ==> s[j] == ' ' || s[j] == '\t' }

  predicate IsToken(s: string) {
    s != "" && NUL !in s && '\n' !in s && ' ' !in s && '\t' !in s
  }

  /** The tokens with blanks before each of them and, at the end, after the last. */
  function Render(tokens: seq<string>, gaps: seq<string>): string
    requires |gaps| == |tokens| + 1
  {
    if tokens == [] then gaps[0] else gaps[0] + tokens[0] + Render(tokens[1..], gaps[1..])
  }

  predicate Separated(tokens: seq<string>, gaps: seq<string>) {
    && |gaps| == |tokens| + 1
    && (forall k :: 0 <= k < |tokens| ==> IsToken(tokens[k]))
    && (forall k :: 0 <= k < |gaps| ==> IsBlank(gaps[k]))
    && (forall k :: 1 <= k < |tokens| ==> gaps[k] != "")
  }

  lemma {:induction false} SkipBlanks(blanks: string, rest: string)
    requires IsBlank(blanks)
    ensures Words(blanks + rest) == Words(rest)
  {
    if blanks == "" {
      assert blanks + rest == rest;
    } else {
      assert (blanks + rest)[1..] == blanks[1..] + rest;
      SkipBlanks(blanks[1..], rest);
    }
  }

  lemma {:induction false} TakeToken(token: string, rest: string)
    requires IsToken(token) && (rest == "" || Blank(rest[0]))
    ensures Words(token + rest) == [token] + Words(rest)
  {
    var text := token + rest;
    var e := RunEnd(text, 0);
    assert forall j :: 0 <= j < |token| ==> !Blank(text[j]);
    assert rest != "" ==> text[|token|] == rest[0];
    assert e == |token|;
    assert text[..e] == token && text[e..] == rest;
  }

  /** Words are read back from any rendering of them. */
  lemma {:induction false} WordsOfRender(tokens: seq<string>, gaps: seq<string>)
    requires Separated(tokens, gaps)
    ensures Words(Render(tokens, gaps)) == tokens
    decreases |tokens|
  {
    if tokens == [] {
      SkipBlanks(gaps[0], "");
      assert gaps[0] + "" == gaps[0];
    } else {
      var rest := Render(tokens[1..], gaps[1..]);
      WordsOfRender(tokens[1..], gaps[1..]);
      assert rest == "" || Blank(rest[0]) by {
        if |tokens| > 1 {
          assert gaps[1] != "";
        }
      }
      assert Render(tokens, gaps) == gaps[0] + (tokens[0] + rest);
      SkipBlanks(gaps[0], tokens[0] + rest);
      TakeToken(tokens[0], rest);
    }
  }

  lemma {:induction false} RenderClean(tokens: seq<string>, gaps: seq<string>)
    requires Separated(tokens, gaps)
    ensures NUL !in Render(tokens, gaps) && '\n' !in Render(tokens, gaps)
    decreases |tokens|
  {
    assert forall j :: 0 <= j < |gaps[0]| ==> Blank(gaps[0][j]);
    if tokens != [] {
      RenderClean(tokens[1..], gaps[1..]);
    }
  }

  /** How a line may end: a carriage return before the newline is dropped, and a line that is to end in
      one itself needs another. */
  predicate Ends(line: string, ending: string) {
    ending == "\r\n" || (ending == "\n" && (line == "" || line[|line| - 1] != '\r'))
  }

  /** For a short line the buffer holds the line, however it ends. */
  lemma ShortLine(line: string, ending: string, more: string)
    requires |line + ending| <= TEMP_SIZE && '\n' !in line && Ends(line, ending)
    ensures '\n' in line + ending + more
    ensures var first := FirstLine(line + ending + more);
      |first| == |line + ending| - 1 && !Overflows(first) && DropReturn(Window(first)) == line
  {
    hide FirstLine, Window, Overflows, DropReturn;
    var input, n := line + ending + more, |line + ending| - 1;
    var stored := if ending == "\n" then line else line + "\r";
    assert input[n] == '\n' && input[..n] == stored;
    LineEnds(input, n);
    WholeWindow(stored);
    Dropped(line);
  }

  lemma WholeWindow(line: string)
    requires |line| < TEMP_SIZE
    ensures Window(line) == line && !Overflows(line)
  {
  }

  lemma Dropped(line: string)
    ensures DropReturn(line + "\r") == line
    ensures line == "" || line[|line| - 1] != '\r' ==> DropReturn(line) == line
  {
    assert (line + "\r")[..|line|] == line;
  }

  lemma {:induction false} SameCString(before: string, after: string, n: nat, p: nat)
    requires |before| == |after| && n <= p <= |before| && before[n..] == after[n..]
    ensures CString(after, p) == CString(before, p)
    decreases |before| - p
  {
    if p < |before| {
      assert before[p] == before[n..][p - n] == after[n..][p - n] == after[p];
      SameCString(before, after, n, p + 1);
    }
  }

  /** Memory and pointers before and after a short line has been read and parsed. */
  predicate Parsed(line: string, was: string, pointers: seq<nat>, memory: string, argv: seq<nat>) {
    && |line| < |memory| == |was| == TEMP_SIZE && |argv| == |pointers| == ARGV_SIZE
    && memory[|line|] == NUL && Cut(line, Spans(line, 0), memory[..|line|])
    && memory[|line| + 1..] == was[|line| + 1..]
    && |Spans(line, 0)| <= ARGV_SIZE
    && (forall k :: 0 <= k < |Spans(line, 0)| ==> argv[k] == Spans(line, 0)[k].start)
    && (forall k :: |Spans(line, 0)| <= k < ARGV_SIZE ==> argv[k] == pointers[k])
  }

  method GetAndParse(d: CommData, ghost line: string, input: string)
    requires d.Valid() && '\n' in input && |FirstLine(input)| < TEMP_SIZE
    requires !Overflows(FirstLine(input)) && DropReturn(Window(FirstLine(input))) == line
    modifies d, d.temp, d.argv
    ensures d.Valid() && d.argc == |Spans(line, 0)|
    ensures Parsed(line, old(d.temp[..]), old(d.argv[..]), d.temp[..], d.argv[..])
  {
    hide FirstLine, Window, Spans, Cut, DropReturn, Overflows;
    ghost var was := d.temp[..];
    var stored, used := d.GetCommand(input);
    assert d.temp[..d.tmpc] == line;
    assert d.temp[..][d.tmpc + 1..] == was[d.tmpc + 1..];
    d.ParseCommand();
    assert d.temp[..][..d.tmpc] == d.temp[..d.tmpc];
    assert d.temp[..][d.tmpc + 1..] == was[d.tmpc + 1..];
  }

  /** Typing tokens separated by blanks, at most 4096 characters in all with the end of the line, and
      then reading and parsing the line gives back the tokens.  A pointer left by an earlier line,
      beyond those the line sets and behind all that the line overwrites, still denotes what it did. */
  method TypeAndParse(d: CommData, tokens: seq<string>, gaps: seq<string>, ending: string, more: string)
    requires d.Valid() && Separated(tokens, gaps)
    requires Ends(Render(tokens, gaps), ending) && |Render(tokens, gaps) + ending| <= TEMP_SIZE
    modifies d, d.temp, d.argv
    ensures d.Valid() && d.argc == |tokens| <= ARGV_SIZE
    ensures forall k :: 0 <= k < |tokens| ==>
      d.argv[k] <= TEMP_SIZE && CString(d.temp[..], d.argv[k]) == tokens[k]
    ensures Parsed(Render(tokens, gaps), old(d.temp[..]), old(d.argv[..]), d.temp[..], d.argv[..])
    ensures forall k :: |tokens| <= k < ARGV_SIZE ==> d.argv[k] == old(d.argv[k])
    ensures forall k :: |tokens| <= k < ARGV_SIZE && |Render(tokens, gaps)| < d.argv[k] <= TEMP_SIZE ==>
      CString(d.temp[..], d.argv[k]) == CString(old(d.temp[..]), d.argv[k])
  {
    ghost var line, was, pointers := Render(tokens, gaps), d.temp[..], d.argv[..];
    hide Render, FirstLine, Window, Spans, CString, Separated, DropReturn, Overflows, Parsed;
    RenderClean(tokens, gaps);
    ShortLine(line, ending, more);
    GetAndParse(d, line, Render(tokens, gaps) + ending + more);
    TypedTokens(tokens, gaps, was, pointers, d.temp[..], d.argv[..]);
  }

  /** What parsing a rendered line leaves in memory. */
  lemma TypedTokens(tokens: seq<string>, gaps: seq<string>, was: string, pointers: seq<nat>,
      memory: string, argv: seq<nat>)
    requires Separated(tokens, gaps) && Parsed(Render(tokens, gaps), was, pointers, memory, argv)
    ensures |Spans(Render(tokens, gaps), 0)| == |tokens| <= ARGV_SIZE == |argv| == |pointers|
    ensures |memory| == |was| == TEMP_SIZE
    ensures forall k :: 0 <= k < |tokens| ==> argv[k] <= TEMP_SIZE && CString(memory, argv[k]) == tokens[k]
    ensures forall k :: |tokens| <= k < ARGV_SIZE ==> argv[k] == pointers[k]
    ensures forall k :: |tokens| <= k < ARGV_SIZE && |Render(tokens, gaps)| < argv[k] <= TEMP_SIZE ==>
      CString(memory, argv[k]) == CString(was, argv[k])
  {
    var line := Render(tokens, gaps);
    hide Render, Words, Spans, Cut, CString, Separated;
    RenderClean(tokens, gaps);
    WordsOfRender(tokens, gaps);
    SpansAreWords(line, 0);
    assert line[0..] == line;
    forall k | 0 <= k < |tokens|
      ensures argv[k] <= TEMP_SIZE && CString(memory, argv[k]) == tokens[k]
    {
      PointersAreWords(line, memory, k);
    }
    forall k | |tokens| <= k < ARGV_SIZE && |line| < argv[k] <= TEMP_SIZE
      ensures CString(memory, argv[k]) == CString(was, argv[k])
    {
      SameCString(was, memory, |line| + 1, argv[k]);
    }
  }

  /** A line that makes the source store its NUL past the buffer. */
  lemma OverflowingLine()
    ensures var line := seq(TEMP_SIZE, _ => 'a');
      '\n' in line + "\n" && FirstLine(line + "\n") == line && Overflows(line)
  {
    var line := seq(TEMP_SIZE, _ => 'a');
    var input := line + "\n";
    assert input[TEMP_SIZE] == '\n' && input[..TEMP_SIZE] == line;
    LineEnds(input, TEMP_SIZE);
  }
}

/** The command table of demo-dh/common/comm_cmd.c lines 41-47 and 129-279. */
module CommandTable {
  import opened Util

  const MAX_CMDS: nat := 100

  const ERR_CMD := 2
  const ERR_ID := 3
  const ERR_NAME := 4
  const ERR_POS := 5

  /** A command structure, known by its address; a null string pointer is None. */
  class Command {
    const id: int
    const name: Option<string>
    const group: Option<string>
    const nogroup: int

    constructor (id: int, name: Option<string>, group: Option<string>, nogroup: int)
      ensures this.id == id && this.name == name && this.group == group && this.nogroup == nogroup
    {
      this.id, this.name, this.group, this.nogroup := id, name, group, nogroup;
    }
  }

  type Slots = seq<Command?>

  /** What a lookup by name does with one slot: go on, take the command, or follow a null pointer. */
  datatype Verdict = Skip | Hit | Crash

  /** The result of `comm_exec_command`: -1, the slot whose command is run, none, or a crash. */
  datatype Outcome = NoArguments | Ran(slot: nat) | NoMatch | Crashed

  // ----- Values -----

  function Check(c: Command?): int {
    if c == null then -ERR_CMD
    else if c.id < 0 then -ERR_ID
    else if c.name == None then -ERR_NAME
    else 0
  }

  /** The lowest index that holds `c`, or -1. */
  function Match(slots: Slots, c: Command?): (r: int)
    ensures -1 <= r < |slots|
    ensures r >= 0 ==> slots[r] == c && forall j :: 0 <= j < r ==> slots[j] != c
    ensures r < 0 ==> c !in slots
  {
    if slots == [] then -1
    else if slots[0] == c then 0
    else
      var r := Match(slots[1..], c);
      assert c in slots ==> c in slots[1..];
      if r < 0 then -1 else r + 1
  }

  /** Register and unregister, with the code they return. */
  function Register(slots: Slots, c: Command?): (Slots, int) {
    if Check(c) != 0 then (slots, Check(c))
    else
      var pos := Match(slots, null);
      if pos < 0 then (slots, -1) else (slots[pos := c], 0)
  }

  function Unregister(slots: Slots, c: Command?): (Slots, int) {
    if Check(c) != 0 then (slots, Check(c))
    else
      var pos := Match(slots, c);
      if pos < 0 then (slots, -1) else (slots[pos := null], 0)
  }

  predicate Eligible(c: Command?) { c != null && c.id >= 0 && c.name.Some? }

  /** The verdict on a slot when `argv[0]` is `a0` and `argv[1]` is `a1`. */
  function Judge(c: Command?, a0: string, a1: Option<string>): Verdict {
    if !Eligible(c) then Skip
    else if c.nogroup == 1 then (if c.name == Some(a0) then Hit else Skip)
    else if c.nogroup == 0 && c.group == None then Crash
    else if c.nogroup == 0 && c.group != Some(a0) then Skip
    else if a1 == None then Crash
    else if c.name == a1 then Hit
    else Skip
  }

  /** The scan of the table: the lowest slot that is not skipped decides. */
  function Dispatch(slots: Slots, a0: string, a1: Option<string>): (r: Outcome)
    ensures !r.NoArguments?
    ensures r == NoMatch <==> forall k :: 0 <= k < |slots| ==> Judge(slots[k], a0, a1) == Skip
    ensures forall k: nat :: r == Ran(k) <==>
      && k < |slots| && Judge(slots[k], a0, a1) == Hit
      && forall j :: 0 <= j < k ==> Judge(slots[j], a0, a1) == Skip
  {
    hide Judge;
    if slots == [] then NoMatch
    else
      match Judge(slots[0], a0, a1)
      case Hit => Ran(0)
      case Crash => Crashed
      case Skip =>
        var r := Dispatch(slots[1..], a0, a1);
        assert forall k :: 1 <= k < |slots| ==> slots[k] == slots[1..][k - 1];
        assert r.Ran? ==> r == Ran(r.slot);
        if r.Ran? then Ran(r.slot + 1) else r
  }

  // ----- The code -----

  class Table {
    const cmds: array<Command?>

    ghost predicate Valid()
    {
      cmds.Length == MAX_CMDS
    }

    /** `comm_init_command`. */
    constructor ()
      ensures Valid() && fresh(cmds) && cmds[..] == Empty()
    {
      cmds := new Command?[MAX_CMDS](_ => null);
      new;
      assert cmds[..] == Empty();
    }

    method MatchCommand(c: Command?) returns (pos: int)
      requires Valid()
      ensures pos == Match(cmds[..], c)
    {
      var i := 0;
      while i < MAX_CMDS
        invariant 0 <= i <= MAX_CMDS
        invariant forall j :: 0 <= j < i ==> cmds[j] != c
      {
        if cmds[i] == c {
          pos := i;
          MatchIs(cmds[..], c, i);
          return;
        }
        i := i + 1;
      }
      pos := -1;
      assert c !in cmds[..];
    }

    method SetCommand(c: Command?, pos: nat) returns (r: int)
      requires Valid()
      modifies cmds
      ensures r == (if pos >= MAX_CMDS then -ERR_POS else 0)
      ensures cmds[..] == (if pos >= MAX_CMDS then old(cmds[..]) else old(cmds[..])[pos := c])
    {
      if pos >= MAX_CMDS {
        return -ERR_POS;
      }
      cmds[pos] := c;
      r := 0;
    }

    method RegisterCommand(c: Command?) returns (r: int)
      requires Valid()
      modifies cmds
      ensures (cmds[..], r) == Register(old(cmds[..]), c)
    {
      r := Check(c);
      if r != 0 {
        return;
      }
      var pos := MatchCommand(null);
      if pos < 0 {
        return -1;
      }
      r := SetCommand(c, pos);
    }

    method UnregisterCommand(c: Command?) returns (r: int)
      requires Valid()
      modifies cmds
      ensures (cmds[..], r) == Unregister(old(cmds[..]), c)
    {
      r := Check(c);
      if r != 0 {
        return;
      }
      var pos := MatchCommand(c);
      if pos < 0 {
        return -1;
      }
      r := SetCommand(null, pos);
    }

    /** `comm_exec_command` on the arguments `args`; with one argument only, `argv[1]` is whatever
        pointer an earlier line has left there. */
    method Exec(args: seq<string>, stale: Option<string>) returns (result: Outcome)
      requires Valid()
      ensures result ==
        if args == [] then NoArguments
        else Dispatch(cmds[..], args[0], if |args| > 1 then Some(args[1]) else stale)
    {
      if |args| <= 0 {
        return NoArguments;
      }
      var a0, a1 := args[0], if |args| > 1 then Some(args[1]) else stale;
      var i := 0;
      while i < MAX_CMDS
        invariant 0 <= i <= MAX_CMDS
        invariant forall j :: 0 <= j < i ==> Judge(cmds[j], a0, a1) == Skip
      {
        var cmd := cmds[i];
        if cmd != null && !(cmd.id < 0 || cmd.name == None) {
          var differs := false;
          var name := if cmd.nogroup == 1 then Some(a0) else a1;
          if cmd.nogroup == 0 {
            if cmd.group == None {
              CrashAt(cmds[..], a0, a1, i);
              return Crashed;
            }
            differs := a0 != cmd.group.value;
          }
          if !differs {
            if name == None {
              CrashAt(cmds[..], a0, a1, i);
              return Crashed;
            }
            if name.value == cmd.name.value {
              assert Judge(cmds[..][i], a0, a1) == Hit;
              return Ran(i);
            }
          }
        }
        i := i + 1;
      }
      result := NoMatch;
    }
  }

  lemma {:induction false} MatchIs(slots: Slots, c: Command?, i: nat)
    requires i < |slots| && slots[i] == c && forall j :: 0 <= j < i ==> slots[j] != c
    ensures Match(slots, c) == i
  {
    assert c in slots;
  }

  lemma {:induction false} CrashAt(slots: Slots, a0: string, a1: Option<string>, k: nat)
    requires k < |slots| && Judge(slots[k], a0, a1) == Crash
    requires forall j :: 0 <= j < k ==> Judge(slots[j], a0, a1) == Skip
    ensures Dispatch(slots, a0, a1) == Crashed
  {
    if k > 0 {
      assert Judge(slots[0], a0, a1) == Skip;
      CrashAt(slots[1..], a0, a1, k - 1);
    }
  }

  // ----- Histories: the table is a bag of at most 100 commands -----

  function Empty(): (r: Slots)
    ensures |r| == MAX_CMDS
  {
    seq(MAX_CMDS, _ => null)
  }

  datatype Op = Reg(c: Command?) | Unreg(c: Command?)

  function Apply(slots: Slots, op: Op): (Slots, int) {
    match op
    case Reg(c) => Register(slots, c)
    case Unreg(c) => Unregister(slots, c)
  }

  /** The table after a history, and the codes returned along the way. */
  function History(ops: seq<Op>): (Slots, seq<int>) {
    if ops == [] then (Empty(), [])
    else
      var (slots, codes) := History(ops[..|ops| - 1]);
      var (slots', code) := Apply(slots, ops[|ops| - 1]);
      (slots', codes + [code])
  }

  /** The same operations on a bag of commands, without any notion of slots. */
  function ApplyToBag(bag: multiset<Command?>, op: Op): (multiset<Command?>, int) {
    var c := op.c;
    if Check(c) != 0 then (bag, Check(c))
    else match op
      case Reg(_) => if |bag| == MAX_CMDS then (bag, -1) else (bag + multiset{c}, 0)
      case Unreg(_) => if c in bag then (bag - multiset{c}, 0) else (bag, -1)
  }

  function BagHistory(ops: seq<Op>): (multiset<Command?>, seq<int>) {
    if ops == [] then (multiset{}, [])
    else
      var (bag, codes) := BagHistory(ops[..|ops| - 1]);
      var (bag', code) := ApplyToBag(bag, ops[|ops| - 1]);
      (bag', codes + [code])
  }

  function Occupants(slots: Slots): multiset<Command?> {
    multiset(slots)[null := 0]
  }

  function CountFree(slots: Slots): nat { multiset(slots)[null] }

  lemma OccupantsSize(slots: Slots)
    ensures |Occupants(slots)| == |slots| - CountFree(slots)
  {
    var m := multiset(slots);
    assert m == m[null := 0] + multiset{}[null := m[null]];
  }

  lemma Replace(slots: Slots, pos: nat, c: Command?)
    requires pos < |slots|
    ensures multiset(slots[pos := c]) == multiset(slots) - multiset{slots[pos]} + multiset{c}
  {
    var t := slots[pos := c];
    assert slots == slots[..pos] + [slots[pos]] + slots[pos + 1..];
    assert t == slots[..pos] + [c] + slots[pos + 1..];
  }

  lemma FreeSlot(slots: Slots)
    requires |slots| == MAX_CMDS
    ensures Match(slots, null) < 0 <==> |Occupants(slots)| == MAX_CMDS
  {
    OccupantsSize(slots);
  }

  lemma StepRefines(slots: Slots, op: Op)
    requires |slots| == MAX_CMDS
    ensures var (slots', code) := Apply(slots, op);
      && |slots'| == MAX_CMDS
      && (Occupants(slots'), code) == ApplyToBag(Occupants(slots), op)
  {
    if Check(op.c) == 0 {
      var c := op.c;
      match op
      case Reg(_) =>
        FreeSlot(slots);
        var pos := Match(slots, null);
        if pos >= 0 {
          Replace(slots, pos, c);
          assert Occupants(slots[pos := c]) == Occupants(slots) + multiset{c};
        }
      case Unreg(_) =>
        var pos := Match(slots, c);
        if pos >= 0 {
          Replace(slots, pos, null);
          assert Occupants(slots[pos := null]) == Occupants(slots) - multiset{c};
        }
    }
  }

  /** For every history of registrations and unregistrations the table holds exactly the bag, and
      every call returns the code the bag returns: a sound command is refused exactly when 100 are
      registered, and removed exactly when it is there. */
  lemma {:induction false} TableIsBag(ops: seq<Op>)
    ensures var (slots, codes) := History(ops);
      && |slots| == MAX_CMDS
      && (Occupants(slots), codes) == BagHistory(ops)
  {
    if ops != [] {
      var n := |ops| - 1;
      TableIsBag(ops[..n]);
      StepRefines(History(ops[..n]).0, ops[n]);
    } else {
      EmptyTable();
    }
  }

  lemma EmptyTable()
    ensures Occupants(Empty()) == multiset{}
  {
    assert forall c :: c in multiset(Empty()) ==> c == null;
  }

  function Successes(ops: seq<Op>, codes: seq<int>, registering: bool): nat
    requires |ops| == |codes|
  {
    if ops == [] then 0
    else
      var n := |ops| - 1;
      Successes(ops[..n], codes[..n], registering)
        + if codes[n] == 0 && ops[n].Reg? == registering then 1 else 0
  }

  /** Occupied slots are successful registrations less successful unregistrations. */
  lemma {:induction false} OccupiedCount(ops: seq<Op>)
    ensures var (bag, codes) := BagHistory(ops);
      && |codes| == |ops|
      && |bag| == Successes(ops, codes, true) - Successes(ops, codes, false)
  {
    if ops != [] {
      var n := |ops| - 1;
      OccupiedCount(ops[..n]);
      var (bag, codes) := BagHistory(ops[..n]);
      var (_, all) := BagHistory(ops);
      assert all[..n] == codes;
    }
  }

  /** Registering uses the lowest free slot, unregistering frees the lowest slot that holds the
      command, and neither touches any other slot. */
  lemma LowestSlot(slots: Slots, c: Command?)
    ensures Register(slots, c).1 == 0 ==>
      exists pos :: 0 <= pos < |slots| && slots[pos] == null && Register(slots, c).0 == slots[pos := c]
        && forall j :: 0 <= j < pos ==> slots[j] != null
    ensures Unregister(slots, c).1 == 0 ==>
      exists pos :: 0 <= pos < |slots| && slots[pos] == c && Unregister(slots, c).0 == slots[pos := null]
        && forall j :: 0 <= j < pos ==> slots[j] != c
    ensures Register(slots, c).1 != 0 ==> Register(slots, c).0 == slots
    ensures Unregister(slots, c).1 != 0 ==> Unregister(slots, c).0 == slots
  {
    assert Match(slots, null) >= 0 ==> slots[Match(slots, null)] == null;
    assert Match(slots, c) >= 0 ==> slots[Match(slots, c)] == c;
  }

  /** Unregistering a command right after registering it restores the table exactly, if it was not
      registered before; otherwise an older registration may be the one that goes. */
  lemma RegisterThenUnregister(slots: Slots, c: Command?)
    requires Check(c) == 0 && c !in slots && null in slots
    ensures Unregister(Register(slots, c).0, c) == (slots, 0)
  {
    var pos := Match(slots, null);
    var t := slots[pos := c];
    MatchIs(t, c, pos);
    assert t[pos := null] == slots;
  }

  // ----- What a line runs, from the fields of the commands -----

  /** A command structure that the scan can handle: it has a name, and a group if it is to be called by
      one.  (The last is not checked when it is registered.) */
  predicate Complete(c: Command?) {
    c != null ==> c.id >= 0 && c.name.Some? && (c.nogroup == 0 ==> c.group.Some?)
  }

  /** The line `a0 a1` calls this command: by its name alone, by group and name, or, for other values
      of `nogroup`, by its name as the second word. */
  predicate Calls(c: Command?, a0: string, a1: string) {
    && c != null
    && (if c.nogroup == 1 then c.name == Some(a0)
        else c.name == Some(a1) && (c.nogroup == 0 ==> c.group == Some(a0)))
  }

  /** A line of two words runs the lowest command that it calls, and nothing only if it calls none. */
  lemma TwoWords(slots: Slots, a0: string, a1: string)
    requires forall j :: 0 <= j < |slots| ==> Complete(slots[j])
    ensures forall k: nat :: Dispatch(slots, a0, Some(a1)) == Ran(k) <==>
      k < |slots| && Calls(slots[k], a0, a1) && forall j :: 0 <= j < k ==> !Calls(slots[j], a0, a1)
    ensures Dispatch(slots, a0, Some(a1)) == NoMatch <==>
      forall j :: 0 <= j < |slots| ==> !Calls(slots[j], a0, a1)
  {
    hide Dispatch;
    forall j | 0 <= j < |slots|
      ensures Judge(slots[j], a0, Some(a1)) == if Calls(slots[j], a0, a1) then Hit else Skip
    {
      assert Complete(slots[j]);
    }
  }

  /** A line of one word runs the lowest command without a group that has this name, whatever an
      earlier line has left behind, if all before it are commands without a group or of another. */
  lemma OneWord(slots: Slots, a0: string, stale: Option<string>, k: nat)
    requires forall j :: 0 <= j < |slots| ==> Complete(slots[j])
    requires k < |slots| && slots[k] != null && slots[k].nogroup == 1 && slots[k].name == Some(a0)
    requires forall j :: 0 <= j < k && slots[j] != null ==>
      (slots[j].nogroup == 1 && slots[j].name != Some(a0)) || (slots[j].nogroup == 0 && slots[j].group != Some(a0))
    ensures Dispatch(slots, a0, stale) == Ran(k)
  {
    hide Dispatch;
    assert Complete(slots[k]);
    forall j | 0 <= j < k
      ensures Judge(slots[j], a0, stale) == Skip
    {
      assert Complete(slots[j]);
    }
  }

  /** Which commands can be registered, and the codes for the others; the group is not looked at. */
  lemma CheckExactly(c: Command?)
    ensures Check(c) == 0 <==> c != null && c.id >= 0 && c.name.Some?
    ensures c == null ==> Check(c) == -2
    ensures c != null && c.id < 0 ==> Check(c) == -3
    ensures c != null && c.id >= 0 && c.name.None? ==> Check(c) == -4
  {
  }

  /** A word longer than all names and groups in the table. */
  function LongWord(slots: Slots): (w: string)
    ensures forall c :: c in slots && c != null ==> c.name != Some(w) && c.group != Some(w)
  {
    seq(Longest(slots) + 1, _ => 'a')
  }

  function Length(s: Option<string>): nat { if s.Some? then |s.value| else 0 }

  function Longest(slots: Slots): (n: nat)
    ensures forall c :: c in slots && c != null ==> Length(c.name) <= n && Length(c.group) <= n
  {
    if slots == [] then 0
    else
      var n, c := Longest(slots[1..]), slots[0];
      assert forall d :: d in slots ==> d == c || d in slots[1..];
      if c == null then n
      else if Length(c.name) >= Length(c.group) && Length(c.name) >= n then Length(c.name)
      else if Length(c.group) >= n then Length(c.group)
      else n
  }

  /** A command that is to be called by a group and has none. */
  predicate Groupless(c: Command?) { Eligible(c) && c.nogroup == 0 && c.group.None? }

  /** Two words never make the scan follow a null pointer exactly if no command in the table is to be
      called by a group that it has not got. */
  lemma NeverCrashes(slots: Slots)
    ensures (forall a0, a1 :: Dispatch(slots, a0, Some(a1)) != Crashed) <==>
      forall j :: 0 <= j < |slots| ==> !Groupless(slots[j])
  {
    if k :| 0 <= k < |slots| && Groupless(slots[k]) {
      var w := LongWord(slots);
      FirstGroupless(slots, w, k);
      assert Dispatch(slots, w, Some(w)) == Crashed;
    } else {
      forall a0, a1
        ensures Dispatch(slots, a0, Some(a1)) != Crashed
      {
        NoCrash(slots, a0, a1);
      }
    }
  }

  lemma {:induction false} FirstGroupless(slots: Slots, w: string, k: nat)
    requires k < |slots| && Groupless(slots[k])
    requires forall c :: c in slots && c != null ==> c.name != Some(w) && c.group != Some(w)
    ensures Dispatch(slots, w, Some(w)) == Crashed
  {
    assert slots[0] in slots;
    if !Groupless(slots[0]) {
      assert forall c :: c in slots[1..] ==> c in slots;
      FirstGroupless(slots[1..], w, k - 1);
    }
  }

  lemma {:induction false} NoCrash(slots: Slots, a0: string, a1: string)
    requires forall j :: 0 <= j < |slots| ==> !Groupless(slots[j])
    ensures Dispatch(slots, a0, Some(a1)) != Crashed
  {
    if slots != [] {
      assert !Groupless(slots[0]);
      forall j | 0 <= j < |slots[1..]|
        ensures !Groupless(slots[1..][j])
      {
        assert slots[1..][j] == slots[j + 1];
      }
      NoCrash(slots[1..], a0, a1);
    }
  }

  // ----- Commands typed without their second word -----

  /** The verdict on this slot depends on `argv[1]`. */
  predicate NeedsSecond(c: Command?, a0: string) {
    Eligible(c) && c.nogroup != 1 && (c.nogroup == 0 ==> c.group == Some(a0))
  }

  /** Slot `k` decides without looking at `argv[1]`. */
  predicate Decides(slots: Slots, a0: string, k: nat)
    requires k < |slots|
  {
    !NeedsSecond(slots[k], a0) && Judge(slots[k], a0, None) != Skip
  }

  lemma JudgeFirstOnly(c: Command?, a0: string, x: Option<string>, y: Option<string>)
    requires !NeedsSecond(c, a0)
    ensures Judge(c, a0, x) == Judge(c, a0, y)
  {
  }

  /** A one-word line means the same whatever an earlier line has left in `argv[1]`, exactly when no
      slot that looks at it comes before the first slot that decides on the one word. */
  lemma OneWordIndependent(slots: Slots, a0: string)
    ensures (forall x, y :: Dispatch(slots, a0, x) == Dispatch(slots, a0, y)) <==>
      forall k :: 0 <= k < |slots| && NeedsSecond(slots[k], a0) ==>
        exists j :: 0 <= j < k && Decides(slots, a0, j)
  {
    var settled := forall k :: 0 <= k < |slots| && NeedsSecond(slots[k], a0) ==>
        exists j :: 0 <= j < k && Decides(slots, a0, j);
    if settled {
      forall x, y
        ensures Dispatch(slots, a0, x) == Dispatch(slots, a0, y)
      {
        SettledSame(slots, a0, x, y);
      }
    } else {
      var k :| 0 <= k < |slots| && NeedsSecond(slots[k], a0) && !exists j :: 0 <= j < k && Decides(slots, a0, j);
      Unsettled(slots, a0, k);
    }
  }

  lemma {:induction false} SettledSame(slots: Slots, a0: string, x: Option<string>, y: Option<string>)
    requires forall k :: 0 <= k < |slots| && NeedsSecond(slots[k], a0) ==>
        exists j :: 0 <= j < k && Decides(slots, a0, j)
    ensures Dispatch(slots, a0, x) == Dispatch(slots, a0, y)
  {
    if slots != [] {
      assert !NeedsSecond(slots[0], a0);
      JudgeFirstOnly(slots[0], a0, x, y);
      JudgeFirstOnly(slots[0], a0, x, None);
      var rest := slots[1..];
      if Judge(slots[0], a0, x) == Skip {
        forall k | 0 <= k < |rest| && NeedsSecond(rest[k], a0)
          ensures exists j :: 0 <= j < k && Decides(rest, a0, j)
        {
          var j :| 0 <= j < k + 1 && Decides(slots, a0, j);
          assert Decides(rest, a0, j - 1);
        }
        SettledSame(rest, a0, x, y);
      }
    }
  }

  lemma {:induction false} Unsettled(slots: Slots, a0: string, k: nat)
    requires k < |slots| && NeedsSecond(slots[k], a0)
    requires !exists j :: 0 <= j < k && Decides(slots, a0, j)
    ensures exists x, y :: Dispatch(slots, a0, x) != Dispatch(slots, a0, y)
  {
    if exists i :: 0 <= i < k && NeedsSecond(slots[i], a0) {
      var i :| 0 <= i < k && NeedsSecond(slots[i], a0);
      Unsettled(slots, a0, i);
    } else {
      var x := slots[k].name;
      forall j | 0 <= j < k
        ensures Judge(slots[j], a0, x) == Skip && Judge(slots[j], a0, None) == Skip
      {
        assert !Decides(slots, a0, j);
        JudgeFirstOnly(slots[j], a0, x, None);
      }
      CrashAt(slots, a0, None, k);
      assert Dispatch(slots, a0, x) == Ran(k);
    }
  }
}

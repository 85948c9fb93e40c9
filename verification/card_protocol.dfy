/**
 The card store as clients share it: lock, load, change, write a temporary file, rename,
 unlock; clients may crash between any two of these, and readers take no lock
 (_transaction, _load, _save and the operations of clozn/memory/cards.py, and
 atomic_write_json of clozn/_io.py).

 A name in the directory leads to an inode; an open file stays readable after the rename.
 */
module CardProtocol {
  import opened Common
  import opened Cards
  import opened CardOps

  type Client = nat
  type Inode = nat

  datatype File = Partial | Complete(cards: Cards)

  /**
   Saved; nothing to save; nothing saved because of a failure that the call reports by its
   result; the lock could not be had and the exception got out; cards listed.
   */
  datatype Ack =
    | Wrote(op: Op, outcome: Outcome)
    | Declined(op: Op, outcome: Outcome)
    | Failed(op: Op)
    | LockedOut(op: Op)
    | Listed(cards: Cards)

  /**
   What a call returned, and the numbers of commits there were when it began, when it
   took effect and when it ended; `sound` says that it could read the store.
   */
  datatype Reply = Reply(ack: Ack, since: nat, at: nat, until: nat, sound: bool)

  datatype Call = Call(op: Op, since: nat)

  datatype Pc =
    | Idle
    | Waiting(call: Call)
    | Locked(call: Call)
    | Loaded(call: Call, view: Cards, sound: bool)
    | Writing(call: Call, effect: Effect, temp: Inode)
    | Written(call: Call, effect: Effect, temp: Inode)
    | Finished(reply: Reply)
    | Opened(at: nat, file: Option<Inode>)

  /**
   `log` lists the operations in the order of their renames, `acks` what calls returned;
   `temps` are the temporary names, `litter` those that a crash or a failed removal left.
   */
  datatype State = State(
    path: Option<Inode>,
    files: map<Inode, File>,
    temps: set<Inode>,
    litter: set<Inode>,
    lock: Option<Client>,
    clients: map<Client, Pc>,
    log: seq<Op>,
    acks: seq<Reply>)

  datatype Step =
    | Invoke(c: Client, op: Op)
    | Acquire(c: Client)
    | LockFails(c: Client)
    | Load(c: Client)
    | LoadFails(c: Client)
    | Decide(c: Client)
    | MakeTemp(c: Client, inode: Inode)
    | WriteTemp(c: Client)
    | Rename(c: Client)
    | SaveFails(c: Client, cleaned: bool)
    | Release(c: Client)
    | Open(c: Client)
    | Read(c: Client)
    | Crash(c: Client)

  function PcOf(s: State, c: Client): Pc {
    if c in s.clients then s.clients[c] else Idle
  }

  function Move(s: State, c: Client, pc: Pc): State {
    s.(clients := s.clients[c := pc])
  }

  /** What a reader gets from a file: a file that is not complete reads as no cards. */
  function Parsed(s: State, file: Option<Inode>): Cards {
    if file.Some? && file.value in s.files && s.files[file.value].Complete? then s.files[file.value].cards else []
  }

  function Content(s: State): Cards {
    Parsed(s, s.path)
  }

  function Unlocked(s: State, c: Client): Option<Client> {
    if s.lock == Some(c) then None else s.lock
  }

  function TempOf(pc: Pc): set<Inode> {
    match pc
    case Writing(_, _, temp) => {temp}
    case Written(_, _, temp) => {temp}
    case _ => {}
  }

  predicate Enabled(s: State, step: Step) {
    var pc := PcOf(s, step.c);
    match step
    case Invoke(_, _) => pc.Idle?
    case Acquire(_) => pc.Waiting? && s.lock.None?
    case LockFails(_) => pc.Waiting?
    case Load(_) => pc.Locked?
    case LoadFails(_) => pc.Locked?
    case Decide(_) => pc.Loaded? && !Apply(pc.call.op, pc.view).saves
    case MakeTemp(_, inode) => pc.Loaded? && Apply(pc.call.op, pc.view).saves && inode !in s.files
    case WriteTemp(_) => pc.Writing?
    case Rename(_) => pc.Written?
    case SaveFails(_, _) => pc.Writing? || pc.Written? || (pc.Loaded? && Apply(pc.call.op, pc.view).saves)
    case Release(_) => pc.Finished?
    case Open(_) => pc.Idle?
    case Read(_) => pc.Opened?
    case Crash(_) => true
  }

  function Next(s: State, step: Step): State
    requires Enabled(s, step)
  {
    var c, now := step.c, |s.log|;
    var pc := PcOf(s, c);
    match step
    case Invoke(_, op) => Move(s, c, Waiting(Call(op, now)))
    case Acquire(_) => Move(s, c, Locked(pc.call)).(lock := Some(c))
    case LockFails(_) =>
      var ack := if pc.call.op.Create? then Failed(pc.call.op) else LockedOut(pc.call.op);
      Move(s, c, Idle).(acks := s.acks + [Reply(ack, pc.call.since, now, now, false)])
    case Load(_) => Move(s, c, Loaded(pc.call, Content(s), true))
    case LoadFails(_) =>
      if pc.call.op.BulkImport? then Move(s, c, Finished(Reply(Failed(pc.call.op), pc.call.since, now, now, false)))
      else Move(s, c, Loaded(pc.call, [], false))
    case Decide(_) =>
      var declined := Declined(pc.call.op, Apply(pc.call.op, pc.view).outcome);
      Move(s, c, Finished(Reply(declined, pc.call.since, now, now, pc.sound)))
    case MakeTemp(_, inode) =>
      Move(s, c, Writing(pc.call, Apply(pc.call.op, pc.view), inode))
      .(files := s.files[inode := Partial], temps := s.temps + {inode})
    case WriteTemp(_) =>
      Move(s, c, Written(pc.call, pc.effect, pc.temp)).(files := s.files[pc.temp := Complete(pc.effect.cards)])
    case Rename(_) =>
      Move(s, c, Finished(Reply(Wrote(pc.call.op, pc.effect.outcome), pc.call.since, now, now + 1, true)))
      .(path := Some(pc.temp), temps := s.temps - {pc.temp}, log := s.log + [pc.call.op])
    case SaveFails(_, cleaned) =>
      var gone := if cleaned then TempOf(pc) else {};
      Move(s, c, Finished(Reply(Failed(pc.call.op), pc.call.since, now, now, false)))
      .(temps := s.temps - gone, litter := s.litter + (TempOf(pc) - gone))
    case Release(_) => Move(s, c, Idle).(lock := Unlocked(s, c), acks := s.acks + [pc.reply])
    case Open(_) => Move(s, c, Opened(now, s.path))
    case Read(_) =>
      Move(s, c, Idle).(acks := s.acks + [Reply(Listed(Parsed(s, pc.file)), pc.at, pc.at, now, true)])
    case Crash(_) => Move(s, c, Idle).(lock := Unlocked(s, c), litter := s.litter + TempOf(pc))
  }

  /** The store before any client has come: no file, or a complete one. */
  predicate Initial(s: State) {
    && (s.path.Some? ==> s.path.value in s.files && s.files[s.path.value].Complete?)
    && s.temps == {} && s.litter == {} && s.lock == None && s.clients == map[] && s.log == [] && s.acks == []
  }

  /** Every step is possible where it is taken. */
  predicate Possible(s: State, steps: seq<Step>)
    decreases |steps|, 0
  {
    steps == []
    || (Possible(s, steps[..|steps| - 1]) && Enabled(After(s, steps[..|steps| - 1]), steps[|steps| - 1]))
  }

  function After(s: State, steps: seq<Step>): State
    requires Possible(s, steps)
    decreases |steps|, 1
  {
    if steps == [] then s else Next(After(s, steps[..|steps| - 1]), steps[|steps| - 1])
  }

  /** A read under the lock that fails where it does harm: _load then passes off the store as empty. */
  predicate Harmful(s: State, step: Step) {
    && step.LoadFails? && PcOf(s, step.c).Locked?
    && PcOf(s, step.c).call.op.Create? && Content(s) != []
  }

  predicate Harmless(s: State, steps: seq<Step>)
    requires Possible(s, steps)
  {
    steps == []
    || (Harmless(s, steps[..|steps| - 1]) && !Harmful(After(s, steps[..|steps| - 1]), steps[|steps| - 1]))
  }

  // ----------------------------------------------------------------- invariant

  /** The reply is right for the serial order at one point between the call's begin and its end. */
  ghost predicate ReplyOk(start: Cards, log: seq<Op>, r: Reply) {
    && r.since <= r.at <= r.until <= |log|
    && var e := Replay(start, log[..r.at]);
    match r.ack
    case Wrote(op, outcome) =>
      r.at < r.until && log[r.at] == op && Apply(op, e).saves && outcome == Apply(op, e).outcome
    case Declined(op, outcome) =>
      if r.sound then !Apply(op, e).saves && outcome == Apply(op, e).outcome else outcome.NotFound?
    case Failed(_) => true
    case LockedOut(op) => !op.Create?
    case Listed(cards) => cards == e
  }

  ghost predicate ViewOk(s: State, call: Call, view: Cards, sound: bool) {
    && (sound ==> view == Content(s))
    && (!sound ==> view == [] && !call.op.BulkImport? && (call.op.Create? ==> Content(s) == []))
  }

  ghost predicate TempOk(s: State, temp: Inode, file: File) {
    && temp in s.files && s.files[temp] == file && temp in s.temps && temp !in s.litter && s.path != Some(temp)
  }

  ghost predicate PcOk(start: Cards, s: State, c: Client, pc: Pc) {
    match pc
    case Idle => true
    case Waiting(call) => call.since <= |s.log|
    case Locked(call) => call.since <= |s.log| && s.lock == Some(c)
    case Loaded(call, view, sound) => call.since <= |s.log| && s.lock == Some(c) && ViewOk(s, call, view, sound)
    case Writing(call, effect, temp) =>
      call.since <= |s.log| && s.lock == Some(c) && TempOk(s, temp, Partial)
      && effect == Apply(call.op, Content(s)) && effect.saves
    case Written(call, effect, temp) =>
      call.since <= |s.log| && s.lock == Some(c) && TempOk(s, temp, Complete(effect.cards))
      && effect == Apply(call.op, Content(s)) && effect.saves
    case Finished(reply) => s.lock == Some(c) && ReplyOk(start, s.log, reply) && NewCommit(s.acks, reply)
    case Opened(at, file) => at <= |s.log| && SeesCommit(start, s, at, file)
  }

  ghost predicate SeesCommit(start: Cards, s: State, at: nat, file: Option<Inode>)
    requires at <= |s.log|
  {
    && (file.Some? ==> file.value in s.files && s.files[file.value].Complete?)
    && Parsed(s, file) == Replay(start, s.log[..at])
  }

  /** No two replies claim the same commit. */
  ghost predicate NewCommit(acks: seq<Reply>, r: Reply) {
    r.ack.Wrote? ==> forall i :: 0 <= i < |acks| && acks[i].ack.Wrote? ==> acks[i].at != r.at
  }

  ghost predicate AcksOk(start: Cards, s: State) {
    && (forall i :: 0 <= i < |s.acks| ==> ReplyOk(start, s.log, s.acks[i]))
    && (forall i :: 0 <= i < |s.acks| ==> NewCommit(s.acks[..i], s.acks[i]))
  }

  ghost predicate StoreOk(start: Cards, s: State) {
    && (s.path.Some? ==> s.path.value in s.files && s.files[s.path.value].Complete?)
    && Content(s) == Replay(start, s.log)
  }

  function InUse(s: State): set<Inode> {
    if s.lock.Some? then TempOf(PcOf(s, s.lock.value)) else {}
  }

  ghost predicate TempsOk(s: State) {
    && s.temps == s.litter + InUse(s)
    && forall t :: t in s.temps ==> t in s.files
  }

  predicate Inside(pc: Pc) {
    pc.Locked? || pc.Loaded? || pc.Writing? || pc.Written? || pc.Finished?
  }

  /** A lock is held by a client on its way to the release. */
  ghost predicate LockOk(s: State) {
    s.lock.Some? ==> Inside(PcOf(s, s.lock.value))
  }

  ghost predicate ClientsOk(start: Cards, s: State) {
    forall c :: c in s.clients ==> PcOk(start, s, c, s.clients[c])
  }

  ghost predicate Invariant(start: Cards, s: State) {
    StoreOk(start, s) && AcksOk(start, s) && TempsOk(s) && LockOk(s) && ClientsOk(start, s)
  }

  // -------------------------------------------------------------- preservation

  lemma ReplyKept(start: Cards, log: seq<Op>, longer: seq<Op>, r: Reply)
    requires ReplyOk(start, log, r) && log <= longer
    ensures ReplyOk(start, longer, r)
  {
    assert longer[..r.at] == log[..r.at];
  }

  /** The files that are complete stay as they are; all of them do while the lock is another's. */
  ghost predicate FilesKept(s: State, s': State) {
    forall i :: i in s.files && s.files[i].Complete? ==> i in s'.files && s'.files[i] == s.files[i]
  }

  ghost predicate Undisturbed(s: State, s': State) {
    s'.path == s.path && s'.files == s.files && s'.temps == s.temps && s'.litter == s.litter && s'.log == s.log
    && s'.lock == s.lock
  }

  lemma PcKept(start: Cards, s: State, s': State, d: Client, pc: Pc)
    requires PcOk(start, s, d, pc)
    requires s.log <= s'.log && FilesKept(s, s')
    requires s.lock == Some(d) ==> Undisturbed(s, s')
    requires pc.Finished? ==> NewCommit(s'.acks, pc.reply)
    ensures PcOk(start, s', d, pc)
  {
    match pc
    case Finished(reply) => ReplyKept(start, s.log, s'.log, reply);
    case Opened(at, file) => assert s'.log[..at] == s.log[..at];
    case _ =>
  }

  /** What a client does leaves alone what others rely on. */
  lemma StepUndisturbing(start: Cards, s: State, step: Step, d: Client)
    requires Enabled(s, step) && PcOk(start, s, step.c, PcOf(s, step.c))
    ensures s.log <= Next(s, step).log && FilesKept(s, Next(s, step))
    ensures d != step.c && s.lock == Some(d) ==> Undisturbed(s, Next(s, step))
  {
  }

  lemma OwnPc(start: Cards, s: State, step: Step)
    requires Enabled(s, step) && !Harmful(s, step) && Invariant(start, s)
    ensures PcOk(start, Next(s, step), step.c, PcOf(Next(s, step), step.c))
  {
    var pc, s' := PcOf(s, step.c), Next(s, step);
    assert PcOk(start, s, step.c, pc);
    assert s.log[..|s.log|] == s.log;
    if step.Rename? {
      assert s'.log[..|s.log|] == s.log;
    }
  }

  lemma OtherPc(start: Cards, s: State, step: Step, d: Client)
    requires Enabled(s, step) && Invariant(start, s) && d != step.c && d in s.clients
    ensures PcOk(start, Next(s, step), d, s.clients[d])
  {
    var pc, s' := s.clients[d], Next(s, step);
    assert PcOk(start, s, step.c, PcOf(s, step.c));
    StepUndisturbing(start, s, step, d);
    PcKept(start, s, s', d, pc);
  }

  lemma ClientsPreserved(start: Cards, s: State, step: Step)
    requires Enabled(s, step) && !Harmful(s, step) && Invariant(start, s)
    ensures ClientsOk(start, Next(s, step))
  {
    var s' := Next(s, step);
    forall d | d in s'.clients ensures PcOk(start, s', d, s'.clients[d]) {
      if d == step.c {
        OwnPc(start, s, step);
      } else {
        OtherPc(start, s, step, d);
      }
    }
  }

  lemma StorePreserved(start: Cards, s: State, step: Step)
    requires Enabled(s, step) && Invariant(start, s)
    ensures StoreOk(start, Next(s, step))
  {
    assert PcOk(start, s, step.c, PcOf(s, step.c));
    if step.Rename? {
      ReplayAppend(start, s.log, PcOf(s, step.c).call.op);
    }
  }

  lemma TempsPreserved(start: Cards, s: State, step: Step)
    requires Enabled(s, step) && Invariant(start, s)
    ensures TempsOk(Next(s, step)) && LockOk(Next(s, step))
  {
    assert PcOk(start, s, step.c, PcOf(s, step.c));
  }

  lemma AcksPreserved(start: Cards, s: State, step: Step)
    requires Enabled(s, step) && Invariant(start, s)
    ensures AcksOk(start, Next(s, step))
  {
    var s', pc := Next(s, step), PcOf(s, step.c);
    assert PcOk(start, s, step.c, pc);
    assert s.log[..|s.log|] == s.log;
    forall i | 0 <= i < |s'.acks| ensures ReplyOk(start, s'.log, s'.acks[i]) && NewCommit(s'.acks[..i], s'.acks[i]) {
      if i < |s.acks| {
        ReplyKept(start, s.log, s'.log, s.acks[i]);
        assert s'.acks[..i] == s.acks[..i];
      } else {
        assert s'.acks[..i] == s.acks;
      }
    }
  }

  lemma StepPreserves(start: Cards, s: State, step: Step)
    requires Enabled(s, step) && !Harmful(s, step) && Invariant(start, s)
    ensures Invariant(start, Next(s, step))
  {
    StorePreserved(start, s, step);
    AcksPreserved(start, s, step);
    TempsPreserved(start, s, step);
    ClientsPreserved(start, s, step);
  }

  // ------------------------------------------------------------ over whole runs

  lemma {:induction false} RunInvariant(s: State, steps: seq<Step>)
    requires Initial(s) && Possible(s, steps) && Harmless(s, steps)
    ensures Invariant(Content(s), After(s, steps))
  {
    if steps == [] {
      assert Replay(Content(s), []) == Content(s);
    } else {
      var init := steps[..|steps| - 1];
      RunInvariant(s, init);
      StepPreserves(Content(s), After(s, init), steps[|steps| - 1]);
    }
  }

  /** The file always holds the whole result of a serial order of the committed operations. */
  lemma FileIsSerial(s: State, steps: seq<Step>)
    requires Initial(s) && Possible(s, steps) && Harmless(s, steps)
    ensures var s' := After(s, steps);
      && (s'.path.Some? ==> s'.path.value in s'.files && s'.files[s'.path.value].Complete?)
      && Content(s') == Replay(Content(s), s'.log)
  {
    RunInvariant(s, steps);
  }

  /** At most one client is between lock and unlock. */
  lemma OneInside(s: State, steps: seq<Step>, c: Client, d: Client)
    requires Initial(s) && Possible(s, steps) && Harmless(s, steps)
    requires Inside(PcOf(After(s, steps), c)) && Inside(PcOf(After(s, steps), d))
    ensures c == d
  {
    RunInvariant(s, steps);
    var s' := After(s, steps);
    assert PcOk(Content(s), s', c, s'.clients[c]) && PcOk(Content(s), s', d, s'.clients[d]);
  }

  /** A reader never sees part of a file, and what it reads was once the whole store. */
  lemma ReadersSeeWholeFiles(s: State, steps: seq<Step>, c: Client)
    requires Initial(s) && Possible(s, steps) && Harmless(s, steps) && PcOf(After(s, steps), c).Opened?
    ensures var s' := After(s, steps);
      var pc := PcOf(s', c);
      && (pc.file.Some? ==> pc.file.value in s'.files && s'.files[pc.file.value].Complete?)
      && pc.at <= |s'.log| && Parsed(s', pc.file) == Replay(Content(s), s'.log[..pc.at])
  {
    RunInvariant(s, steps);
    assert PcOk(Content(s), After(s, steps), c, PcOf(After(s, steps), c));
  }

  lemma StepGrows(s: State, step: Step)
    requires Enabled(s, step)
    ensures s.log <= Next(s, step).log && s.acks <= Next(s, step).acks
  {
  }

  /** Commits stay commits, and returns stay returns. */
  lemma {:induction false} LogsGrow(s: State, steps: seq<Step>, more: seq<Step>)
    requires Possible(s, steps + more)
    ensures Possible(s, steps)
    ensures After(s, steps).log <= After(s, steps + more).log
    ensures After(s, steps).acks <= After(s, steps + more).acks
    decreases |more|
  {
    hide Next, Enabled;
    if more == [] {
      assert steps + more == steps;
    } else {
      var all := steps + more;
      assert all[..|all| - 1] == steps + more[..|more| - 1];
      LogsGrow(s, steps, more[..|more| - 1]);
      StepGrows(After(s, all[..|all| - 1]), all[|all| - 1]);
    }
  }

  /**
   Every call takes effect at one point between its begin and its end: what it returned is
   what the serial order gives there, and no two calls claim the same commit.
   */
  lemma CallsAreLinearizable(s: State, steps: seq<Step>, i: nat, j: nat)
    requires Initial(s) && Possible(s, steps) && Harmless(s, steps)
    requires i < |After(s, steps).acks| && j < |After(s, steps).acks|
    ensures var s' := After(s, steps);
      var a, b := s'.acks[i], s'.acks[j];
      && ReplyOk(Content(s), s'.log, a)
      && (i != j && a.ack.Wrote? && b.ack.Wrote? ==> a.at != b.at)
      && (a.until <= b.since ==> a.at <= b.at && (a.ack.Wrote? ==> a.at < b.at))
  {
    RunInvariant(s, steps);
    var acks := After(s, steps).acks;
    var lo, hi := Min(i, j), Max(i, j);
    assert NewCommit(acks[..hi], acks[hi]);
    assert i == j || acks[..hi][lo] == acks[lo];
    assert ReplyOk(Content(s), After(s, steps).log, acks[j]);
  }

  /** A card that create returned is in the file until a later deletion of its id commits. */
  lemma ReturnedCardIsKept(s: State, steps: seq<Step>, i: nat, id: string)
    requires Initial(s) && Possible(s, steps) && Harmless(s, steps)
    requires i < |After(s, steps).acks|
    requires var ack := After(s, steps).acks[i].ack; ack.Wrote? && ack.op.Create? && HasId(ack.op.card, id)
    requires forall j :: After(s, steps).acks[i].at < j < |After(s, steps).log| ==>
      !(After(s, steps).log[j].Delete? && After(s, steps).log[j].id == id)
    ensures Holds(Content(After(s, steps)), id)
  {
    RunInvariant(s, steps);
    var s' := After(s, steps);
    assert ReplyOk(Content(s), s'.log, s'.acks[i]);
    CreatedCardSurvives(Content(s), s'.log, s'.acks[i].at, id);
  }

  /** The usage count in the file is the number of bumps committed since the card's creation. */
  lemma FileCountsBumps(
    numbers: Numbers, s: State, steps: seq<Step>, before: seq<Op>, card: Card, later: seq<Op>, id: string)
    requires Initial(s) && Possible(s, steps) && Harmless(s, steps)
    requires After(s, steps).log == before + [Create(card)] + later
    requires HasId(card, id) && CountOf(numbers, card) == Some(0) && !Holds(Replay(Content(s), before), id)
    requires forall j :: 0 <= j < |later| ==> LeavesUsage(numbers, later[j], id)
    ensures Usage(numbers, Content(After(s, steps)), id) == Some(BumpsOf(later, id))
  {
    RunInvariant(s, steps);
    UsageCountsBumps(numbers, Content(s), before, card, later, id);
  }

  /** The call ended with an exception; an import reports every failure so. */
  predicate Raises(ack: Ack) {
    || ack.LockedOut?
    || (ack.Declined? && ack.outcome.Raised?)
    || (ack.Failed? && ack.op.BulkImport?)
  }

  /**
   A call of create, update, delete or bump_usage raises if and only if it is not a creation
   and cannot have the lock, or it stumbles over the cards that it read.
   */
  lemma CallRaisesExactly(s: State, steps: seq<Step>, i: nat)
    requires Initial(s) && Possible(s, steps) && Harmless(s, steps)
    requires i < |After(s, steps).acks|
    requires var ack := After(s, steps).acks[i].ack; !ack.Listed? && !ack.op.BulkImport?
    ensures var s' := After(s, steps);
      var r := s'.acks[i];
      && r.at <= |s'.log|
      && (r.ack.LockedOut? ==> !r.ack.op.Create?)
      && (Raises(r.ack) <==>
            r.ack.LockedOut?
            || (r.ack.Declined? && r.sound && Stumbles(r.ack.op, Replay(Content(s), s'.log[..r.at]))))
  {
    hide Apply, Stumbles, Replay;
    RunInvariant(s, steps);
    var s' := After(s, steps);
    var r := s'.acks[i];
    assert ReplyOk(Content(s), s'.log, r);
    RaisesExactly(r.ack.op, Replay(Content(s), s'.log[..r.at]));
  }

  predicate Tidy(step: Step) {
    !step.Crash? && (step.SaveFails? ==> step.cleaned)
  }

  /** Without crashes and failed removals no temporary file outlives the call that made it. */
  lemma {:induction false} NoLitter(s: State, steps: seq<Step>)
    requires Initial(s) && Possible(s, steps) && Harmless(s, steps)
    requires forall i :: 0 <= i < |steps| ==> Tidy(steps[i])
    ensures After(s, steps).litter == {}
    ensures After(s, steps).temps == InUse(After(s, steps))
  {
    RunInvariant(s, steps);
    if steps != [] {
      var init := steps[..|steps| - 1];
      assert Tidy(steps[|steps| - 1]);
      NoLitter(s, init);
    }
  }

  // ----------------------------------------------------- reads that fail under the lock

  /**
   A create whose read fails saves its card alone: it keeps the store if and only if the
   store was empty.
   */
  lemma FailedReadLosesTheStore(s: State, c: Client, inode: Inode)
    requires PcOf(s, c).Locked? && PcOf(s, c).call.op.Create? && inode !in s.files
    ensures var op := PcOf(s, c).call.op;
      var s1 := Next(s, LoadFails(c));
      && Enabled(s1, MakeTemp(c, inode))
      && var s2 := Next(s1, MakeTemp(c, inode));
      && Enabled(s2, WriteTemp(c))
      && var s3 := Next(s2, WriteTemp(c));
      && Enabled(s3, Rename(c))
      && var s4 := Next(s3, Rename(c));
      && Content(s4) == [op.card] && s4.log == s.log + [op]
      && (Content(s4) == Apply(op, Content(s)).cards <==> Content(s) == [])
  {
    assert [] + [PcOf(s, c).call.op.card] == [PcOf(s, c).call.op.card];
  }

  /** Reads that fail under the lock in any other call save nothing. */
  lemma FailedReadSavesNothing(s: State, c: Client)
    requires PcOf(s, c).Locked? && !PcOf(s, c).call.op.Create?
    ensures var s1 := Next(s, LoadFails(c));
      Content(s1) == Content(s) && (PcOf(s1, c).Finished? || (PcOf(s1, c).Loaded? && Enabled(s1, Decide(c))))
  {
  }

  lemma OneMore(s: State, steps: seq<Step>, step: Step)
    requires Possible(s, steps) && Enabled(After(s, steps), step)
    ensures Possible(s, steps + [step]) && After(s, steps + [step]) == Next(After(s, steps), step)
  {
    assert (steps + [step])[..|steps|] == steps;
  }

  /** Such a run: whatever was committed before, only the new card is left. */
  lemma CommittedCardsCanBeLost(s: State, c: Client, card: Card, inode: Inode) returns (steps: seq<Step>)
    requires Initial(s) && Content(s) != [] && inode !in s.files
    ensures Possible(s, steps) && !Harmless(s, steps)
    ensures Content(After(s, steps)) == [card]
    ensures Content(After(s, steps)) != Replay(Content(s), After(s, steps).log)
  {
    OneMore(s, [], Invoke(c, Create(card)));
    OneMore(s, [] + [Invoke(c, Create(card))], Acquire(c));
    var locked := [] + [Invoke(c, Create(card))] + [Acquire(c)];
    OneMore(s, locked, LoadFails(c));
    NotHarmless(s, locked, LoadFails(c));
    OneMore(s, locked + [LoadFails(c)], MakeTemp(c, inode));
    NotHarmless(s, locked + [LoadFails(c)], MakeTemp(c, inode));
    OneMore(s, locked + [LoadFails(c)] + [MakeTemp(c, inode)], WriteTemp(c));
    NotHarmless(s, locked + [LoadFails(c)] + [MakeTemp(c, inode)], WriteTemp(c));
    var written := locked + [LoadFails(c)] + [MakeTemp(c, inode)] + [WriteTemp(c)];
    OneMore(s, written, Rename(c));
    NotHarmless(s, written, Rename(c));
    steps := written + [Rename(c)];
    assert [] + [card] == [card];
    assert After(s, steps).log == [] + [Create(card)];
    ReplayAppend(Content(s), [], Create(card));
  }

  lemma NotHarmless(s: State, steps: seq<Step>, step: Step)
    requires Possible(s, steps) && Enabled(After(s, steps), step) && Possible(s, steps + [step])
    ensures !Harmless(s, steps) || Harmful(After(s, steps), step) ==> !Harmless(s, steps + [step])
  {
    assert (steps + [step])[..|steps|] == steps;
  }

  // ------------------------------------------------------------------ the save itself

  datatype Fault = NoFault | AtSerialising | AtCreating | AtWriting | AtReplacing

  /** The steps of one atomic write, up to where it fails. */
  function SaveSteps(c: Client, inode: Inode, fault: Fault, cleaned: bool): seq<Step> {
    match fault
    case NoFault => [MakeTemp(c, inode), WriteTemp(c), Rename(c)]
    case AtWriting => [MakeTemp(c, inode), SaveFails(c, cleaned)]
    case AtReplacing => [MakeTemp(c, inode), WriteTemp(c), SaveFails(c, cleaned)]
    case _ => [SaveFails(c, cleaned)]
  }

  lemma OneStep(s: State, a: Step)
    requires Enabled(s, a)
    ensures Possible(s, [a]) && After(s, [a]) == Next(s, a)
  {
    assert [a][..0] == [];
  }

  lemma TwoSteps(s: State, a: Step, b: Step)
    requires Enabled(s, a) && Enabled(Next(s, a), b)
    ensures Possible(s, [a, b]) && After(s, [a, b]) == Next(Next(s, a), b)
  {
    OneStep(s, a);
    OneMore(s, [a], b);
    assert [a] + [b] == [a, b];
  }

  lemma ThreeSteps(s: State, a: Step, b: Step, d: Step)
    requires Enabled(s, a) && Enabled(Next(s, a), b) && Enabled(Next(Next(s, a), b), d)
    ensures Possible(s, [a, b, d]) && After(s, [a, b, d]) == Next(Next(Next(s, a), b), d)
  {
    TwoSteps(s, a, b);
    OneMore(s, [a, b], d);
    assert [a, b] + [d] == [a, b, d];
  }

  lemma EarlyFault(s: State, c: Client, cleaned: bool)
    requires PcOf(s, c).Loaded? && Apply(PcOf(s, c).call.op, PcOf(s, c).view).saves
    ensures Enabled(s, SaveFails(c, cleaned))
    ensures var s' := Next(s, SaveFails(c, cleaned)); s'.path == s.path && s'.files == s.files && s'.temps == s.temps
  {
  }

  lemma TempMade(s: State, c: Client, inode: Inode)
    requires PcOf(s, c).Loaded? && Apply(PcOf(s, c).call.op, PcOf(s, c).view).saves && inode !in s.files
    ensures Enabled(s, MakeTemp(c, inode))
    ensures var s' := Next(s, MakeTemp(c, inode));
      && PcOf(s', c) == Writing(PcOf(s, c).call, Apply(PcOf(s, c).call.op, PcOf(s, c).view), inode)
      && s'.path == s.path && s'.files == s.files[inode := Partial] && s'.temps == s.temps + {inode}
  {
  }

  lemma TempWritten(s: State, c: Client)
    requires PcOf(s, c).Writing?
    ensures Enabled(s, WriteTemp(c))
    ensures var pc, s' := PcOf(s, c), Next(s, WriteTemp(c));
      && PcOf(s', c) == Written(pc.call, pc.effect, pc.temp)
      && s'.path == s.path && s'.files == s.files[pc.temp := Complete(pc.effect.cards)] && s'.temps == s.temps
  {
  }

  lemma TempEnds(s: State, c: Client, cleaned: bool)
    requires PcOf(s, c).Writing? || PcOf(s, c).Written?
    ensures Enabled(s, SaveFails(c, cleaned))
    ensures var s' := Next(s, SaveFails(c, cleaned));
      && s'.path == s.path && s'.files == s.files
      && s'.temps == if cleaned then s.temps - {PcOf(s, c).temp} else s.temps
    ensures PcOf(s, c).Written? ==> Enabled(s, Rename(c))
    ensures PcOf(s, c).Written? ==>
      Next(s, Rename(c)).path == Some(PcOf(s, c).temp) && Next(s, Rename(c)).files == s.files
    ensures PcOf(s, c).Written? ==> Next(s, Rename(c)).temps == s.temps - {PcOf(s, c).temp}
  {
  }

  /** The directory after a save, wherever it failed. */
  lemma SaveEffects(s: State, c: Client, inode: Inode, fault: Fault, cleaned: bool)
    requires PcOf(s, c).Loaded? && Apply(PcOf(s, c).call.op, PcOf(s, c).view).saves && inode !in s.files
    ensures Possible(s, SaveSteps(c, inode, fault, cleaned))
    ensures var s' := After(s, SaveSteps(c, inode, fault, cleaned));
      var cards := Apply(PcOf(s, c).call.op, PcOf(s, c).view).cards;
      && s'.path == (if fault.NoFault? then Some(inode) else s.path)
      && s'.files == (if fault.AtSerialising? || fault.AtCreating? then s.files
                      else if fault.AtWriting? then s.files[inode := Partial] else s.files[inode := Complete(cards)])
      && s'.temps == (if fault.AtSerialising? || fault.AtCreating? then s.temps
                      else if fault.NoFault? || cleaned then s.temps + {inode} - {inode} else s.temps + {inode})
  {
    hide Next, Enabled, Possible, After, PcOf;
    if fault.AtSerialising? || fault.AtCreating? {
      EarlyFault(s, c, cleaned);
      OneStep(s, SaveFails(c, cleaned));
    } else {
      TempMade(s, c, inode);
      var made := Next(s, MakeTemp(c, inode));
      if fault.AtWriting? {
        TempEnds(made, c, cleaned);
        TwoSteps(s, MakeTemp(c, inode), SaveFails(c, cleaned));
      } else {
        TempWritten(made, c);
        TempEnds(Next(made, WriteTemp(c)), c, cleaned);
        ThreeSteps(s, MakeTemp(c, inode), WriteTemp(c), if fault.NoFault? then Rename(c) else SaveFails(c, cleaned));
      }
      assert s.files[inode := Partial][inode := Complete(Apply(PcOf(s, c).call.op, PcOf(s, c).view).cards)]
          == s.files[inode := Complete(Apply(PcOf(s, c).call.op, PcOf(s, c).view).cards)];
    }
  }

  /** The directory that holds the store. */
  class Directory {
    var path: Option<Inode>
    var files: map<Inode, File>
    var temps: set<Inode>

    constructor ()
      ensures path == None && files == map[] && temps == {}
    {
      path, files, temps := None, map[], {};
    }

    ghost predicate Shows(s: State)
      reads this
    {
      path == s.path && files == s.files && temps == s.temps
    }

    /**
     atomic_write_json; `inode` is the new file that mkstemp gives, `fault` the place where
     an exception comes, and `cleaned` whether the removal succeeds then. It does just what
     the steps of the protocol do.
     */
    method AtomicWrite(cards: Cards, inode: Inode, fault: Fault, cleaned: bool, ghost s: State, ghost c: Client)
      returns (ok: bool)
      requires Shows(s) && PcOf(s, c).Loaded? && inode !in files
      requires Apply(PcOf(s, c).call.op, PcOf(s, c).view).saves
      requires cards == Apply(PcOf(s, c).call.op, PcOf(s, c).view).cards
      requires inode !in temps
      modifies this
      ensures Possible(s, SaveSteps(c, inode, fault, cleaned))
      ensures Shows(After(s, SaveSteps(c, inode, fault, cleaned)))
      ensures ok == fault.NoFault?
      ensures ok ==> path == Some(inode) && files == old(files)[inode := Complete(cards)]
      ensures !ok ==> path == old(path) && forall i :: i in old(files) ==> i in files && files[i] == old(files)[i]
      ensures ok || cleaned || fault.AtSerialising? || fault.AtCreating? ==> temps == old(temps)
    {
      hide Possible, After, SaveSteps;
      SaveEffects(s, c, inode, fault, cleaned);
      if fault.AtSerialising? || fault.AtCreating? {
        return false;
      }
      files, temps := files[inode := Partial], temps + {inode};
      if !fault.AtWriting? {
        files := files[inode := Complete(cards)];
        if fault.NoFault? {
          path, temps := Some(inode), temps - {inode};
          return true;
        }
      }
      if cleaned {
        temps := temps - {inode};
      }
      ok := false;
    }
  }
}

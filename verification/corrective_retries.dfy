/**
 Session policies with compare-and-swap undo (clozn/behavior/corrective_retries.py).

 Doc is the stored document. Beside it a History records, for the statements only, which
 change was a session's last one, how often a session's entry was dropped, and which
 sessions ever lost their entry by expiry.
 */
module CorrectiveRetries {
  import opened Common

  type Presets = seq<string>

  datatype Entry = Entry(presets: Presets, revision: nat, expires: real)

  datatype Transaction = Transaction(id: string, target: string, before: Presets, after: Presets,
                                     afterRevision: nat, undone: bool)

  datatype Doc = Doc(sessions: map<string, Entry>, transactions: seq<Transaction>)

  datatype Refusal = UnknownPreset | NotASessionKey | UnknownUndoId | AlreadyUndone | StaleUndo

  datatype Outcome = Activated(undoId: string) | Unchanged | Undone(presets: Presets) | Refused(reason: Refusal)

  const SESSION_TTL_SECONDS := 30.0 * 86400.0
  const KEPT_TRANSACTIONS := 200

  predicate IsSessionKey(target: string) {
    "session_" <= target
  }

  // ------------------------------------------------------------ the operations

  /** _load: entries that have expired are dropped, and old transactions. */
  function Load(doc: Doc, now: real): Doc {
    var n := |doc.transactions|;
    Doc(map k | k in doc.sessions && doc.sessions[k].expires > now :: doc.sessions[k],
        doc.transactions[Max(0, n - KEPT_TRANSACTIONS)..])
  }

  function PresetsOf(doc: Doc, target: string): Presets {
    if target in doc.sessions then doc.sessions[target].presets else []
  }

  function RevisionOf(doc: Doc, target: string): nat {
    if target in doc.sessions then doc.sessions[target].revision else 0
  }

  /** What activate leaves behind; only the outcome Activated saves the document. */
  function Activate(known: set<string>, stored: Doc, target: string, preset: string, id: string, now: real)
    : (Doc, Outcome)
  {
    var doc := Load(stored, now);
    var before := PresetsOf(doc, target);
    if preset !in known then (stored, Refused(UnknownPreset))
    else if !IsSessionKey(target) then (stored, Refused(NotASessionKey))
    else if preset in before then (stored, Unchanged)
    else
      var after, revision := before + [preset], RevisionOf(doc, target) + 1;
      var tx := Transaction(id, target, before, after, revision, false);
      (Doc(doc.sessions[target := Entry(after, revision, now + SESSION_TTL_SECONDS)], doc.transactions + [tx]),
       Activated(id))
  }

  /** The last transaction with this id, or the number of transactions. */
  function Find(txs: seq<Transaction>, id: string, below: nat): (i: nat)
    requires below <= |txs|
    ensures i < below ==> txs[i].id == id
    ensures i <= |txs| && (i < below || i == |txs|)
    ensures forall j :: 0 <= j < below && txs[j].id == id ==> j <= i < below
  {
    if below == 0 then |txs|
    else if txs[below - 1].id == id then below - 1
    else Find(txs, id, below - 1)
  }

  function Found(stored: Doc, id: string, now: real): Option<Transaction> {
    var txs := Load(stored, now).transactions;
    var i := Find(txs, id, |txs|);
    if i < |txs| then Some(txs[i]) else None
  }

  /** What undo leaves behind; only the outcome Undone saves the document. */
  function Undo(stored: Doc, id: string, now: real): (Doc, Outcome) {
    var doc := Load(stored, now);
    var i := Find(doc.transactions, id, |doc.transactions|);
    if i == |doc.transactions| then (stored, Refused(UnknownUndoId))
    else
      var tx := doc.transactions[i];
      if tx.undone then (stored, Refused(AlreadyUndone))
      else if PresetsOf(doc, tx.target) != tx.after || RevisionOf(doc, tx.target) != tx.afterRevision then
        (stored, Refused(StaleUndo))
      else
        var revision := RevisionOf(doc, tx.target) + 1;
        var sessions :=
          if tx.before != [] then
            doc.sessions[tx.target := Entry(tx.before, revision, now + SESSION_TTL_SECONDS)]
          else doc.sessions - {tx.target};
        (Doc(sessions, doc.transactions[i := tx.(undone := true)]), Undone(tx.before))
  }

  // ------------------------------------------------------- what an operation leaves behind

  /** What is left of an expired or overlong document: the live entries, and the last 200 transactions. */
  lemma LoadKeeps(doc: Doc, now: real)
    ensures var loaded := Load(doc, now);
      && (forall k :: k in loaded.sessions <==> k in doc.sessions && doc.sessions[k].expires > now)
      && (forall k :: k in loaded.sessions ==> loaded.sessions[k] == doc.sessions[k])
    ensures var n, loaded := |doc.transactions|, Load(doc, now);
      |loaded.transactions| == (if n <= 200 then n else 200)
      && doc.transactions == doc.transactions[..n - |loaded.transactions|] + loaded.transactions
  {
  }

  /** The sessions other than this one are as they were loaded. */
  ghost predicate OthersKept(before: Doc, after: Doc, target: string) {
    forall k :: k != target ==>
      (k in after.sessions <==> k in before.sessions)
      && (k in after.sessions && k in before.sessions ==> after.sessions[k] == before.sessions[k])
  }

  const THIRTY_DAYS := 2_592_000.0

  /** When a preset is activated, and what that changes: one session, alive for thirty days more, and the record. */
  lemma ActivationEffect(known: set<string>, stored: Doc, target: string, preset: string, id: string, now: real)
    ensures var (doc, outcome) := Activate(known, stored, target, preset, id, now);
      var loaded := Load(stored, now);
      var before := PresetsOf(loaded, target);
      && (outcome.Activated? <==> preset in known && IsSessionKey(target) && preset !in before)
      && (!outcome.Activated? ==> doc == stored)
      && (outcome.Activated? ==>
            && outcome.undoId == id && OthersKept(loaded, doc, target) && target in doc.sessions
            && doc.sessions[target].presets == before + [preset]
            && doc.sessions[target].revision == RevisionOf(loaded, target) + 1
            && doc.sessions[target].expires == now + THIRTY_DAYS
            && doc.transactions == loaded.transactions
                 + [Transaction(id, target, before, before + [preset], RevisionOf(loaded, target) + 1, false)])
  {
  }

  /** Transaction i of the record, the last with this id, can be undone: nothing has changed since. */
  predicate Undoable(doc: Doc, i: nat, id: string) {
    && i < |doc.transactions| && doc.transactions[i].id == id && !doc.transactions[i].undone
    && (forall j :: i < j < |doc.transactions| ==> doc.transactions[j].id != id)
    && PresetsOf(doc, doc.transactions[i].target) == doc.transactions[i].after
    && RevisionOf(doc, doc.transactions[i].target) == doc.transactions[i].afterRevision
  }

  /** What undoing transaction i changes: its session, for thirty days more unless it is left without presets. */
  ghost predicate UndoneAt(loaded: Doc, doc: Doc, i: nat, now: real) {
    && i < |loaded.transactions| == |doc.transactions|
    && doc.transactions == loaded.transactions[i := loaded.transactions[i].(undone := true)]
    && var tx := loaded.transactions[i];
       && OthersKept(loaded, doc, tx.target)
       && (tx.before == [] ==> tx.target !in doc.sessions)
       && (tx.before != [] ==>
             && tx.target in doc.sessions && doc.sessions[tx.target].presets == tx.before
             && doc.sessions[tx.target].revision == RevisionOf(loaded, tx.target) + 1
             && doc.sessions[tx.target].expires == now + THIRTY_DAYS)
  }

  lemma UndoEffect(stored: Doc, id: string, now: real)
    ensures var (doc, outcome) := Undo(stored, id, now);
      var loaded := Load(stored, now);
      && (outcome.Undone? <==> exists i: nat :: Undoable(loaded, i, id))
      && (!outcome.Undone? ==> doc == stored)
      && forall i: nat :: Undoable(loaded, i, id) ==>
           UndoneAt(loaded, doc, i, now) && outcome == Undone(loaded.transactions[i].before)
  {
    var loaded := Load(stored, now);
    var at := Find(loaded.transactions, id, |loaded.transactions|);
    forall i: nat | Undoable(loaded, i, id) ensures i == at {
      assert loaded.transactions[i].id == id;
    }
    if Undo(stored, id, now).1.Undone? {
      assert Undoable(loaded, at, id);
    }
  }

  // ------------------------------------------------------------------- history

  /** last: the transaction whose activation was the latest change of a session, if no undo followed it. */
  datatype Mark = Mark(last: Option<string>, before: Presets)

  datatype History = History(marks: map<string, Mark>, lives: map<string, nat>, born: map<string, nat>,
                             expired: set<string>)

  datatype World = World(doc: Doc, history: History)

  /** How many times the entry of this session, and its revision with it, has been dropped. */
  function Life(h: History, target: string): nat {
    if target in h.lives then h.lives[target] else 0
  }

  function LastChange(h: History, target: string): Option<string> {
    if target in h.marks then h.marks[target].last else None
  }

  function Lapsed(stored: Doc, now: real): set<string> {
    set k | k in stored.sessions && stored.sessions[k].expires <= now
  }

  function Drop(h: History, dropped: set<string>): History {
    h.(lives := map k | k in h.lives.Keys + dropped :: Life(h, k) + if k in dropped then 1 else 0)
  }

  /** Saving a document that was loaded at this time makes the expiry of entries final. */
  function Expire(h: History, stored: Doc, now: real): History {
    Drop(h.(expired := h.expired + Lapsed(stored, now)), Lapsed(stored, now))
  }

  datatype Event =
    | Activation(target: string, preset: string, id: string, now: real)
    | Undoing(id: string, now: real)

  function Step(known: set<string>, w: World, e: Event): (World, Outcome) {
    match e
    case Activation(target, preset, id, now) =>
      var (doc, outcome) := Activate(known, w.doc, target, preset, id, now);
      if !outcome.Activated? then (w, outcome)
      else
        var h := Expire(w.history, w.doc, now);
        var before := PresetsOf(Load(w.doc, now), target);
        (World(doc, h.(marks := h.marks[target := Mark(Some(id), before)],
                       born := h.born[id := Life(h, target)])), outcome)
    case Undoing(id, now) =>
      var (doc, outcome) := Undo(w.doc, id, now);
      if !outcome.Undone? then (w, outcome)
      else
        var tx := Found(w.doc, id, now).value;
        var h := Drop(Expire(w.history, w.doc, now), if tx.before == [] then {tx.target} else {});
        (World(doc, h.(marks := h.marks[tx.target := Mark(None, tx.after)])), outcome)
  }

  const EMPTY := World(Doc(map[], []), History(map[], map[], map[], {}))

  /** uuid4 gives every activation an id that was not used before. */
  predicate FreshId(w: World, e: Event) {
    e.Activation? ==> e.id !in w.history.born
  }

  function Run(known: set<string>, events: seq<Event>): World {
    if events == [] then EMPTY
    else Step(known, Run(known, events[..|events| - 1]), events[|events| - 1]).0
  }

  ghost predicate FreshRun(known: set<string>, events: seq<Event>) {
    events == [] || (FreshRun(known, events[..|events| - 1])
                     && FreshId(Run(known, events[..|events| - 1]), events[|events| - 1]))
  }

  // ----------------------------------------------------------------- invariant

  ghost predicate EntryOk(entry: Entry) {
    entry.presets != [] && entry.revision >= 1
  }

  ghost predicate TxOk(w: World, tx: Transaction) {
    && tx.id in w.history.born && w.history.born[tx.id] <= Life(w.history, tx.target)
    && tx.afterRevision >= 1
    && |tx.after| == |tx.before| + 1 && tx.after[..|tx.before|] == tx.before
    && (tx.before == [] ==> tx.afterRevision == 1)
    && (LastChange(w.history, tx.target) == Some(tx.id) ==> !tx.undone && StillLast(w, tx))
    && (!tx.undone && InThisLife(w, tx) ==> Current(w, tx))
    && (!tx.undone && tx.target !in w.history.expired ==> InThisLife(w, tx))
  }

  /** The entry has not been dropped since this transaction was recorded. */
  ghost predicate InThisLife(w: World, tx: Transaction)
    requires tx.id in w.history.born
  {
    w.history.born[tx.id] == Life(w.history, tx.target)
  }

  ghost predicate StillLast(w: World, tx: Transaction)
    requires tx.id in w.history.born
  {
    tx.target in w.doc.sessions ==> InThisLife(w, tx)
  }

  /** An activation of this life that was not undone. */
  ghost predicate Current(w: World, tx: Transaction) {
    && tx.target in w.doc.sessions
    && var entry := w.doc.sessions[tx.target];
    && tx.afterRevision <= entry.revision
    && (tx.afterRevision == entry.revision <==> LastChange(w.history, tx.target) == Some(tx.id))
    && (tx.afterRevision == entry.revision ==>
          entry.presets == tx.after && w.history.marks[tx.target].before == tx.before)
  }

  ghost predicate DistinctIds(txs: seq<Transaction>) {
    forall i, j :: 0 <= i < j < |txs| ==> txs[i].id != txs[j].id
  }

  ghost predicate Invariant(w: World) {
    && (forall k :: k in w.doc.sessions ==> EntryOk(w.doc.sessions[k]))
    && (forall i :: 0 <= i < |w.doc.transactions| ==> TxOk(w, w.doc.transactions[i]))
    && DistinctIds(w.doc.transactions)
  }

  // ------------------------------------------------------------- preservation

  /** A transaction that activate keeps. */
  lemma ActivationKeeps(known: set<string>, w: World, e: Event, tx: Transaction)
    requires e.Activation? && FreshId(w, e) && TxOk(w, tx)
    requires forall k :: k in w.doc.sessions ==> EntryOk(w.doc.sessions[k])
    requires Step(known, w, e).1.Activated?
    ensures TxOk(Step(known, w, e).0, tx)
  {
    var w' := Step(known, w, e).0;
    assert tx.id != e.id;
    if tx.target != e.target {
      assert LastChange(w'.history, tx.target) == LastChange(w.history, tx.target);
    }
  }

  lemma ActivationAdds(known: set<string>, w: World, e: Event)
    requires e.Activation? && FreshId(w, e)
    requires forall k :: k in w.doc.sessions ==> EntryOk(w.doc.sessions[k])
    requires Step(known, w, e).1.Activated?
    ensures var w' := Step(known, w, e).0;
      TxOk(w', w'.doc.transactions[|w'.doc.transactions| - 1])
  {
  }

  /** A transaction that undo keeps as it is. */
  lemma UndoKeeps(known: set<string>, w: World, e: Event, tx: Transaction)
    requires e.Undoing? && TxOk(w, tx) && tx.id != e.id
    requires Step(known, w, e).1.Undone? && TxOk(w, Found(w.doc, e.id, e.now).value)
    ensures TxOk(Step(known, w, e).0, tx)
  {
    var w', undone := Step(known, w, e).0, Found(w.doc, e.id, e.now).value;
    if tx.target != undone.target {
      assert LastChange(w'.history, tx.target) == LastChange(w.history, tx.target);
    }
  }

  lemma UndoMarks(known: set<string>, w: World, e: Event)
    requires e.Undoing?
    requires Step(known, w, e).1.Undone? && TxOk(w, Found(w.doc, e.id, e.now).value)
    ensures TxOk(Step(known, w, e).0, Found(w.doc, e.id, e.now).value.(undone := true))
  {
  }

  lemma ActivationPreserves(known: set<string>, w: World, e: Event)
    requires e.Activation? && FreshId(w, e) && Invariant(w) && Step(known, w, e).1.Activated?
    ensures Invariant(Step(known, w, e).0)
  {
    var w' := Step(known, w, e).0;
    var kept := Load(w.doc, e.now).transactions;
    var txs := w'.doc.transactions;
    forall i | 0 <= i < |txs| ensures TxOk(w', txs[i]) && (i < |kept| ==> txs[i].id != e.id) {
      if i < |kept| {
        assert kept[i] in w.doc.transactions;
        ActivationKeeps(known, w, e, kept[i]);
      } else {
        ActivationAdds(known, w, e);
      }
    }
  }

  lemma UndoPreserves(known: set<string>, w: World, e: Event)
    requires e.Undoing? && Invariant(w) && Step(known, w, e).1.Undone?
    ensures Invariant(Step(known, w, e).0)
  {
    hide TxOk;
    var w' := Step(known, w, e).0;
    var kept := Load(w.doc, e.now).transactions;
    var at := Find(kept, e.id, |kept|);
    var txs := w'.doc.transactions;
    assert forall j :: 0 <= j < |kept| ==> kept[j] in w.doc.transactions;
    forall i | 0 <= i < |txs| ensures TxOk(w', txs[i]) {
      if i == at {
        UndoMarks(known, w, e);
      } else {
        assert kept[i].id != e.id;
        UndoKeeps(known, w, e, kept[i]);
      }
    }
  }

  lemma RefusalsChangeNothing(known: set<string>, w: World, e: Event)
    requires !Step(known, w, e).1.Activated? && !Step(known, w, e).1.Undone?
    ensures Step(known, w, e).0 == w
  {
  }

  lemma OutcomeKinds(known: set<string>, w: World, e: Event)
    ensures Step(known, w, e).1.Activated? ==> e.Activation?
    ensures Step(known, w, e).1.Undone? ==> e.Undoing?
  {
  }

  lemma StepPreserves(known: set<string>, w: World, e: Event)
    requires FreshId(w, e) && Invariant(w)
    ensures Invariant(Step(known, w, e).0)
  {
    OutcomeKinds(known, w, e);
    var outcome := Step(known, w, e).1;
    if outcome.Activated? {
      ActivationPreserves(known, w, e);
    } else if outcome.Undone? {
      UndoPreserves(known, w, e);
    } else {
      RefusalsChangeNothing(known, w, e);
    }
  }

  lemma {:induction false} RunInvariant(known: set<string>, events: seq<Event>)
    requires FreshRun(known, events)
    ensures Invariant(Run(known, events))
  {
    if events != [] {
      var w, e := Run(known, events[..|events| - 1]), events[|events| - 1];
      RunInvariant(known, events[..|events| - 1]);
      StepPreserves(known, w, e);
    }
  }

  // -------------------------------------------------------------- the theorems

  predicate Alive(w: World, target: string, now: real) {
    target in w.doc.sessions && w.doc.sessions[target].expires > now
  }

  /**
   On every run: an undo that succeeds takes back the session's last change if and only if
   the session's entry has not been dropped since the transaction was recorded. Then it
   restores exactly the presets before that change.
   */
  lemma UndoTakesBackTheLastChange(known: set<string>, events: seq<Event>, id: string, now: real)
    requires FreshRun(known, events)
    requires Undo(Run(known, events).doc, id, now).1.Undone?
    ensures var w := Run(known, events); var tx := Found(w.doc, id, now).value;
      && tx.id == id && id in w.history.born
      && (LastChange(w.history, tx.target) == Some(id) <==> InThisLife(w, tx))
      && (InThisLife(w, tx) ==>
            && tx.target in w.history.marks
            && PresetsOf(Undo(w.doc, id, now).0, tx.target) == w.history.marks[tx.target].before)
  {
    RunInvariant(known, events);
    var w := Run(known, events);
    var tx := Found(w.doc, id, now).value;
    assert tx in Load(w.doc, now).transactions && tx in w.doc.transactions;
    assert TxOk(w, tx);
  }

  /**
   For a session that never lost its entry by expiry, also across undos to no preset at all:
   an undo succeeds exactly when it is for the session's last change, the entry is alive
   and the transaction is still on record.
   */
  lemma UndoWithoutExpiry(known: set<string>, events: seq<Event>, id: string, now: real)
    requires FreshRun(known, events)
    requires var found := Found(Run(known, events).doc, id, now);
      found.Some? ==> found.value.target !in Run(known, events).history.expired
    ensures var w := Run(known, events); var found := Found(w.doc, id, now);
      Undo(w.doc, id, now).1.Undone? <==>
        found.Some? && LastChange(w.history, found.value.target) == Some(id) && Alive(w, found.value.target, now)
  {
    RunInvariant(known, events);
    var w := Run(known, events);
    var found := Found(w.doc, id, now);
    if found.Some? {
      assert found.value in Load(w.doc, now).transactions && found.value in w.doc.transactions;
      assert TxOk(w, found.value);
    }
  }

  /** An undo that is refused leaves the document alone; one that succeeds touches one session only. */
  lemma UndoFrame(stored: Doc, id: string, now: real)
    ensures !Undo(stored, id, now).1.Undone? ==> Undo(stored, id, now).0 == stored
    ensures Undo(stored, id, now).1.Undone? ==>
      forall k :: k != Found(stored, id, now).value.target ==>
        PresetsOf(Undo(stored, id, now).0, k) == PresetsOf(Load(stored, now), k)
  {
  }

  /** An undo restores presets that are in effect until the entry expires, and cannot be repeated. */
  lemma UndoOnlyOnce(known: set<string>, events: seq<Event>, id: string, now: real, later: real)
    requires FreshRun(known, events)
    requires Undo(Run(known, events).doc, id, now).1.Undone?
    ensures var after := Undo(Run(known, events).doc, id, now).0;
      !Undo(after, id, later).1.Undone?
  {
    RunInvariant(known, events);
    var w := Run(known, events);
    var kept := Load(w.doc, now).transactions;
    var after := Undo(w.doc, id, now).0;
    var i := Find(kept, id, |kept|);
    assert forall j :: 0 <= j < |kept| ==> kept[j] in w.doc.transactions;
    assert forall j :: 0 <= j < |kept| && j != i ==> kept[j].id != id;
    var loaded := Load(after, later).transactions;
    assert forall j :: 0 <= j < |loaded| ==> loaded[j] in after.transactions;
    assert forall tx :: tx in after.transactions && tx.id == id ==> tx.undone;
  }

  /**
   Expiry is the one way to undo what was not the last change: activate, let the entry
   expire, activate the same preset, and the first undo id passes.
   */
  lemma ExpiryDefeatsTheCheck(preset: string) returns (events: seq<Event>, w: World, now: real)
    ensures FreshRun({preset}, events) && w == Run({preset}, events)
    ensures LastChange(w.history, "session_1") == Some("b")
    ensures Undo(w.doc, "a", now).1 == Undone([])
  {
    now := SESSION_TTL_SECONDS;
    var first := Activation("session_1", preset, "a", 0.0);
    var second := Activation("session_1", preset, "b", now);
    var w1 := AfterFirst(preset, first);
    RunAppend({preset}, [first], second);
    events := [first] + [second];
    w := Step({preset}, w1, second).0;
    SecondActivation(preset, w1, now);
  }

  lemma AfterFirst(preset: string, first: Event) returns (w: World)
    requires first == Activation("session_1", preset, "a", 0.0)
    ensures w == Run({preset}, [first]) && FreshRun({preset}, [first])
    ensures w.doc.sessions == map["session_1" := Entry([preset], 1, SESSION_TTL_SECONDS)]
    ensures w.doc.transactions == [Transaction("a", "session_1", [], [preset], 1, false)]
    ensures "b" !in w.history.born
  {
    hide Load, Step, FreshRun, Run;
    EmptyWorld(preset, first);
    RunAppend({preset}, [], first);
    assert [] + [first] == [first];
    w := Step({preset}, EMPTY, first).0;
    FirstActivation("session_1", preset, "a", 0.0, EMPTY, EMPTY.doc);
    assert EMPTY.doc.sessions["session_1" := Entry([preset], 1, SESSION_TTL_SECONDS)]
        == map["session_1" := Entry([preset], 1, SESSION_TTL_SECONDS)];
  }

  lemma EmptyWorld(preset: string, e: Event)
    requires e.Activation? && e.id == "a"
    ensures Load(EMPTY.doc, 0.0) == EMPTY.doc == Doc(map[], []) && EMPTY.history.born == map[]
    ensures Run({preset}, []) == EMPTY && FreshRun({preset}, []) && FreshId(EMPTY, e)
  {
    hide Step;
    LoadNothing(0.0);
  }

  lemma LoadNothing(now: real)
    ensures Load(Doc(map[], []), now) == Doc(map[], [])
  {
    var loaded := Load(Doc(map[], []), now);
    assert loaded.sessions.Keys == {};
    assert loaded.sessions == map[] && loaded.transactions == [];
  }

  lemma SecondActivation(preset: string, w: World, now: real)
    requires w.doc.sessions == map["session_1" := Entry([preset], 1, now)]
    requires w.doc.transactions == [Transaction("a", "session_1", [], [preset], 1, false)]
    ensures var w' := Step({preset}, w, Activation("session_1", preset, "b", now)).0;
      LastChange(w'.history, "session_1") == Some("b") && Undo(w'.doc, "a", now).1 == Undone([])
  {
    var loaded := Doc(map[], w.doc.transactions);
    assert Load(w.doc, now) == loaded;
    FirstActivation("session_1", preset, "b", now, w, loaded);
    var doc := Step({preset}, w, Activation("session_1", preset, "b", now)).0.doc;
    var b := Transaction("b", "session_1", [], [preset], 1, false);
    assert doc.transactions == w.doc.transactions + [b];
    assert Load(doc, now).transactions == doc.transactions;
    assert Find(doc.transactions, "a", 1) == 0;
    assert Find(doc.transactions, "a", 2) == 0;
  }

  lemma RunAppend(known: set<string>, events: seq<Event>, e: Event)
    ensures Run(known, events + [e]) == Step(known, Run(known, events), e).0
    ensures FreshRun(known, events) && FreshId(Run(known, events), e) ==> FreshRun(known, events + [e])
  {
    assert (events + [e])[..|events|] == events;
  }

  /** An activation for a session without a live entry. */
  lemma FirstActivation(target: string, preset: string, id: string, now: real, w: World, loaded: Doc)
    requires loaded == Load(w.doc, now) && IsSessionKey(target) && target !in loaded.sessions
    ensures var w' := Step({preset}, w, Activation(target, preset, id, now)).0;
      && w'.doc.transactions == loaded.transactions + [Transaction(id, target, [], [preset], 1, false)]
      && w'.doc.sessions == loaded.sessions[target := Entry([preset], 1, now + SESSION_TTL_SECONDS)]
      && LastChange(w'.history, target) == Some(id)
      && w'.history.born.Keys == w.history.born.Keys + {id}
  {
    assert [] + [preset] == [preset];
  }

  // ----------------------------------------------------------------- the store

  /** The stored document, changed in place; a refused call saves nothing. */
  class Store {
    var sessions: map<string, Entry>
    var transactions: seq<Transaction>

    function Stored(): Doc
      reads this
    {
      Doc(sessions, transactions)
    }

    constructor ()
      ensures Stored() == EMPTY.doc
    {
      sessions, transactions := map[], [];
    }

    method LoadStored(now: real) returns (doc: Doc)
      ensures doc == Load(Stored(), now)
    {
      var live: map<string, Entry> := map[];
      var keys := sessions.Keys;
      while keys != {}
        invariant keys <= sessions.Keys
        invariant live == map k | k in sessions && k !in keys && sessions[k].expires > now :: sessions[k]
        decreases keys
      {
        var key :| key in keys;
        keys := keys - {key};
        if sessions[key].expires > now {
          live := live[key := sessions[key]];
        }
      }
      doc := Doc(live, transactions[Max(0, |transactions| - KEPT_TRANSACTIONS)..]);
    }

    method ActivatePreset(known: set<string>, target: string, preset: string, id: string, now: real)
      returns (outcome: Outcome)
      modifies this
      ensures (Stored(), outcome) == Activate(known, old(Stored()), target, preset, id, now)
    {
      if preset !in known {
        return Refused(UnknownPreset);
      }
      var doc := LoadStored(now);
      if !IsSessionKey(target) {
        return Refused(NotASessionKey);
      }
      var before := PresetsOf(doc, target);
      if preset in before {
        return Unchanged;
      }
      var after, revision := before + [preset], RevisionOf(doc, target) + 1;
      sessions := doc.sessions[target := Entry(after, revision, now + SESSION_TTL_SECONDS)];
      transactions := doc.transactions + [Transaction(id, target, before, after, revision, false)];
      outcome := Activated(id);
    }

    method UndoTransaction(id: string, now: real) returns (outcome: Outcome)
      modifies this
      ensures (Stored(), outcome) == Undo(old(Stored()), id, now)
    {
      var doc := LoadStored(now);
      var i := |doc.transactions|;
      while i > 0 && doc.transactions[i - 1].id != id
        invariant 0 <= i <= |doc.transactions|
        invariant forall j :: i <= j < |doc.transactions| ==> doc.transactions[j].id != id
      {
        i := i - 1;
      }
      if i == 0 {
        return Refused(UnknownUndoId);
      }
      var tx := doc.transactions[i - 1];
      if tx.undone {
        return Refused(AlreadyUndone);
      }
      if PresetsOf(doc, tx.target) != tx.after || RevisionOf(doc, tx.target) != tx.afterRevision {
        return Refused(StaleUndo);
      }
      if tx.before != [] {
        var revision := RevisionOf(doc, tx.target) + 1;
        sessions := doc.sessions[tx.target := Entry(tx.before, revision, now + SESSION_TTL_SECONDS)];
      } else {
        sessions := doc.sessions - {tx.target};
      }
      transactions := doc.transactions[i - 1 := tx.(undone := true)];
      outcome := Undone(tx.before);
    }
  }
}

/**
 When operations on the same key do not overlap, the two tiers together behave as one map: every Get
 returns the last value written and not since removed.
 */
module TierFreshness {
  import opened Bytes
  import opened Payloads
  import opened TierProtocol

  /** The map a history of completed writes denotes. */
  function LastWrite(h: seq<Event>, k: Key): Option<Value> {
    if h == [] then None
    else
      var e := h[|h| - 1];
      if e.Wrote? && e.key == k then Some(e.v)
      else if e.Removed? && e.key == k then None
      else LastWrite(h[..|h| - 1], k)
  }

  /** No task is at work on `k`. */
  ghost predicate Idle(s: State, k: Key) {
    forall id :: id in s.tasks ==> s.tasks[id].key != k
  }

  /** Operations start on idle keys, L1 writes succeed, and SetToL1 avoids keys resident in L0. */
  ghost predicate Admissible(s: State, a: Action) {
    match a
    case StartGet(_, k) => Idle(s, k)
    case StartSet(_, k, _) => Idle(s, k)
    case StartDelete(_, k) => Idle(s, k)
    case StartTier(_, k) => Idle(s, k)
    case StartPrewarm(_, k) => Idle(s, k)
    case Advance(_, l1Ok) => l1Ok
    case DirectSet(k, _, l1Ok) => Idle(s, k) && k !in s.l0 && l1Ok
    case Evict(_) => true
    case Crash => true
  }

  ghost predicate AdmissibleRun(maxPayload: nat, s: State, acts: seq<Action>)
    decreases acts
  {
    acts == [] || (Admissible(s, acts[0]) && AdmissibleRun(maxPayload, Step(maxPayload, s, acts[0]), acts[1..]))
  }

  // ---------------------------------------------------------------- the invariant

  ghost predicate OneTaskPerKey(s: State) {
    forall i, j :: i in s.tasks && j in s.tasks && i != j ==> s.tasks[i].key != s.tasks[j].key
  }

  ghost predicate Same(s: State, k: Key) {
    k in s.l0 ==> k in s.l1 && s.l1[k] == s.l0[k]
  }

  /** What a task may rely on while it owns its key. */
  ghost predicate TaskOk(s: State, t: Task) {
    match t.op
    case Promote(v) => Same(s, t.key) && t.key in s.l1 && s.l1[t.key] == v
    case SetL1(v) => t.key in s.l0 ==> s.l0[t.key] == v
    case DelL1 => t.key !in s.l0
    case TierCopy(v) => Same(s, t.key) && t.key in s.l1 && s.l1[t.key] == v
    case _ => Same(s, t.key)
  }

  ghost predicate Coherent(s: State) {
    && OneTaskPerKey(s)
    && (forall id :: id in s.tasks ==> TaskOk(s, s.tasks[id]))
    && (forall k :: Idle(s, k) ==> Same(s, k))
  }

  ghost predicate L1IsLastWrite(s: State) {
    forall k :: LastWrite(s.history, k) == if k in s.l1 then Some(s.l1[k]) else None
  }

  ghost predicate ReadsFresh(h: seq<Event>) {
    forall i :: 0 <= i < |h| && h[i].Got? ==> h[i].r == LastWrite(h[..i], h[i].key)
  }

  ghost predicate Inv(s: State) {
    Coherent(s) && L1IsLastWrite(s) && ReadsFresh(s.history)
  }

  // ---------------------------------------------------------------- coherence

  /** The maps differ at most at `k`. */
  predicate SameBut(m: map<Key, Value>, n: map<Key, Value>, k: Key) {
    (forall j :: j in m && j != k ==> j in n && n[j] == m[j]) && forall j :: j in n && j != k ==> j in m
  }

  /** Tasks on other keys do not notice a step that touches only `k`. */
  lemma OthersUnaffected(s: State, t: State, k: Key)
    requires Coherent(s) && SameBut(s.l0, t.l0, k) && SameBut(s.l1, t.l1, k)
    ensures forall id :: id in s.tasks && s.tasks[id].key != k ==> TaskOk(t, s.tasks[id])
    ensures forall j :: j != k && Same(s, j) ==> Same(t, j)
  {
    forall id | id in s.tasks && s.tasks[id].key != k ensures TaskOk(t, s.tasks[id]) {
      assert TaskOk(s, s.tasks[id]);
    }
  }

  /** What one step must leave at its own key: the task's next claim, or agreement if it has ended. */
  lemma DoAtKey(maxPayload: nat, s: State, id: nat)
    requires id in s.tasks && TaskOk(s, s.tasks[id])
    ensures var k, t := s.tasks[id].key, Do(maxPayload, s, id, s.tasks[id].key, s.tasks[id].op, true);
            && (id in t.tasks ==> t.tasks[id].key == k && TaskOk(t, t.tasks[id]))
            && (id !in t.tasks ==> Same(t, k))
  {
  }

  /** And it touches nothing else: neither other tasks nor other keys. */
  lemma DoOtherTasks(maxPayload: nat, s: State, id: nat)
    requires id in s.tasks
    ensures var t := Do(maxPayload, s, id, s.tasks[id].key, s.tasks[id].op, true);
            forall i :: i != id ==> (i in t.tasks <==> i in s.tasks) && (i in s.tasks ==> t.tasks[i] == s.tasks[i])
  {
  }

  lemma DoOtherKeys(maxPayload: nat, s: State, id: nat)
    requires id in s.tasks
    ensures var k, t := s.tasks[id].key, Do(maxPayload, s, id, s.tasks[id].key, s.tasks[id].op, true);
            SameBut(s.l0, t.l0, k) && SameBut(s.l1, t.l1, k)
  {
    DoOtherKeysL0(maxPayload, s, id);
    DoOtherKeysL1(maxPayload, s, id);
  }

  lemma DoOtherKeysL0(maxPayload: nat, s: State, id: nat)
    requires id in s.tasks
    ensures SameBut(s.l0, Do(maxPayload, s, id, s.tasks[id].key, s.tasks[id].op, true).l0, s.tasks[id].key)
  {
  }

  lemma DoOtherKeysL1(maxPayload: nat, s: State, id: nat)
    requires id in s.tasks
    ensures SameBut(s.l1, Do(maxPayload, s, id, s.tasks[id].key, s.tasks[id].op, true).l1, s.tasks[id].key)
  {
  }

  lemma DoKeepsCoherent(maxPayload: nat, s: State, id: nat)
    requires Coherent(s) && id in s.tasks
    ensures Coherent(Do(maxPayload, s, id, s.tasks[id].key, s.tasks[id].op, true))
  {
    var k, t := s.tasks[id].key, Do(maxPayload, s, id, s.tasks[id].key, s.tasks[id].op, true);
    DoAtKey(maxPayload, s, id);
    DoOtherTasks(maxPayload, s, id);
    DoOtherKeys(maxPayload, s, id);
    OthersUnaffected(s, t, k);
    forall i | i in t.tasks ensures TaskOk(t, t.tasks[i]) {
      if i != id {
        assert s.tasks[i].key != k;
      }
    }
    forall j | Idle(t, j) ensures Same(t, j) {
      if j != k {
        forall i | i in s.tasks ensures s.tasks[i].key != j {
          if i != id {
            assert t.tasks[i] == s.tasks[i];
          }
        }
        assert Idle(s, j);
      }
    }
  }

  lemma SpawnKeepsCoherent(s: State, id: nat, k: Key, op: Op)
    requires Coherent(s) && Idle(s, k) && TaskOk(s, Task(k, op))
    ensures Coherent(Spawn(s, id, k, op))
  {
    var t := Spawn(s, id, k, op);
    if id !in s.tasks {
      forall j | Idle(t, j) ensures Same(t, j) {
        forall i | i in s.tasks ensures s.tasks[i].key != j {
          assert t.tasks[i] == s.tasks[i];
        }
        assert Idle(s, j) && Same(s, j);
      }
      forall i | i in t.tasks ensures TaskOk(t, t.tasks[i]) {
        assert i != id ==> TaskOk(s, s.tasks[i]);
      }
    }
  }

  lemma DirectSetKeepsCoherent(maxPayload: nat, s: State, a: Action)
    requires Coherent(s) && a.DirectSet? && Admissible(s, a)
    ensures Coherent(Step(maxPayload, s, a))
  {
    var t := Step(maxPayload, s, a);
    OthersUnaffected(s, t, a.key);
    assert forall j :: Idle(t, j) ==> Idle(s, j);
  }

  lemma EvictKeepsCoherent(s: State, k: Key)
    requires Coherent(s)
    ensures Coherent(s.(l0 := s.l0 - {k}))
  {
    var t := s.(l0 := s.l0 - {k});
    OthersUnaffected(s, t, k);
    forall i | i in t.tasks ensures TaskOk(t, t.tasks[i]) {
      assert TaskOk(s, s.tasks[i]);
    }
    assert forall j :: Idle(t, j) ==> Idle(s, j);
  }

  lemma HistoryIsNoMatter(s: State, e: Event)
    requires Coherent(s)
    ensures Coherent(Log(s, e))
  {
    var t := Log(s, e);
    forall i | i in t.tasks ensures TaskOk(t, t.tasks[i]) {
      assert TaskOk(s, s.tasks[i]);
    }
    assert forall j :: Idle(t, j) ==> Idle(s, j);
  }

  lemma StepKeepsCoherent(maxPayload: nat, s: State, a: Action)
    requires Coherent(s) && Admissible(s, a)
    ensures Coherent(Step(maxPayload, s, a))
  {
    match a
    case StartGet(id, k) => SpawnKeepsCoherent(s, id, k, GetL0);
    case StartSet(id, k, v) =>
      SpawnKeepsCoherent(s, id, k, SetL0(v));
      HistoryIsNoMatter(Spawn(s, id, k, SetL0(v)), Given(k, v));
    case StartDelete(id, k) => SpawnKeepsCoherent(s, id, k, DelL0);
    case StartTier(id, k) => if k in s.l0 { SpawnKeepsCoherent(s, id, k, TierCopy(s.l0[k])); }
    case StartPrewarm(id, k) => if k in s.l1 { SpawnKeepsCoherent(s, id, k, Promote(s.l1[k])); }
    case Advance(id, _) => if id in s.tasks { DoKeepsCoherent(maxPayload, s, id); }
    case DirectSet(_, _, _) => DirectSetKeepsCoherent(maxPayload, s, a);
    case Evict(k) => EvictKeepsCoherent(s, k);
    case Crash =>
  }

  // ---------------------------------------------------------------- histories

  lemma LogWrites(h: seq<Event>, e: Event)
    ensures forall k :: LastWrite(h + [e], k) ==
              if e.Wrote? && e.key == k then Some(e.v) else if e.Removed? && e.key == k then None else LastWrite(h, k)
  {
    assert (h + [e])[..|h|] == h;
  }

  lemma LogKeepsFresh(h: seq<Event>, e: Event)
    requires ReadsFresh(h) && (e.Got? ==> e.r == LastWrite(h, e.key))
    ensures ReadsFresh(h + [e])
  {
    var h' := h + [e];
    forall i | 0 <= i < |h'| && h'[i].Got? ensures h'[i].r == LastWrite(h'[..i], h'[i].key) {
      assert h'[..i] == h[..i];
    }
    assert h[..|h|] == h;
  }

  lemma ReadKeepsHistory(s: State, t: State, k: Key)
    requires L1IsLastWrite(s) && ReadsFresh(s.history) && t.l1 == s.l1
    requires t.history == s.history + [Got(k, if k in s.l1 then Some(s.l1[k]) else None)]
    ensures L1IsLastWrite(t) && ReadsFresh(t.history)
  {
    var e := Got(k, if k in s.l1 then Some(s.l1[k]) else None);
    LogWrites(s.history, e);
    LogKeepsFresh(s.history, e);
  }

  lemma WriteKeepsHistory(s: State, t: State, k: Key, v: Value)
    requires L1IsLastWrite(s) && ReadsFresh(s.history) && t.l1 == s.l1[k := v]
    requires t.history == s.history + [Wrote(k, v)]
    ensures L1IsLastWrite(t) && ReadsFresh(t.history)
  {
    LogWrites(s.history, Wrote(k, v));
    LogKeepsFresh(s.history, Wrote(k, v));
  }

  lemma RemovalKeepsHistory(s: State, t: State, k: Key)
    requires L1IsLastWrite(s) && ReadsFresh(s.history) && t.l1 == s.l1 - {k}
    requires t.history == s.history + [Removed(k)]
    ensures L1IsLastWrite(t) && ReadsFresh(t.history)
  {
    LogWrites(s.history, Removed(k));
    LogKeepsFresh(s.history, Removed(k));
  }

  lemma DoKeepsHistory(maxPayload: nat, s: State, id: nat)
    requires Inv(s) && id in s.tasks
    ensures var t := Do(maxPayload, s, id, s.tasks[id].key, s.tasks[id].op, true);
            L1IsLastWrite(t) && ReadsFresh(t.history)
  {
    var k, t := s.tasks[id].key, Do(maxPayload, s, id, s.tasks[id].key, s.tasks[id].op, true);
    assert TaskOk(s, s.tasks[id]);
    match s.tasks[id].op
    case GetL0 => if k in s.l0 && |k| <= maxPayload { ReadKeepsHistory(s, t, k); }
    case GetL1 => ReadKeepsHistory(s, t, k);
    case SetL1(v) => WriteKeepsHistory(s, t, k, v);
    case DelL1 => RemovalKeepsHistory(s, t, k);
    case TierCopy(v) => assert s.l1[k := v] == s.l1;
    case _ =>
  }

  lemma StepKeepsHistory(maxPayload: nat, s: State, a: Action)
    requires Inv(s) && Admissible(s, a)
    ensures L1IsLastWrite(Step(maxPayload, s, a)) && ReadsFresh(Step(maxPayload, s, a).history)
  {
    match a
    case StartSet(_, k, v) =>
      LogWrites(s.history, Given(k, v));
      LogKeepsFresh(s.history, Given(k, v));
    case Advance(id, _) => if id in s.tasks { DoKeepsHistory(maxPayload, s, id); }
    case DirectSet(k, v, _) => DirectSetKeepsHistory(maxPayload, s, a);
    case _ =>
  }

  lemma DirectSetKeepsHistory(maxPayload: nat, s: State, a: Action)
    requires L1IsLastWrite(s) && ReadsFresh(s.history) && a.DirectSet? && a.l1Ok
    ensures L1IsLastWrite(Step(maxPayload, s, a)) && ReadsFresh(Step(maxPayload, s, a).history)
  {
    var h, given, wrote := s.history, Given(a.key, a.v), Wrote(a.key, a.v);
    LogWrites(h, given);
    LogKeepsFresh(h, given);
    LogWrites(h + [given], wrote);
    LogKeepsFresh(h + [given], wrote);
  }

  lemma {:induction false} RunKeepsInv(maxPayload: nat, s: State, acts: seq<Action>)
    requires Inv(s) && AdmissibleRun(maxPayload, s, acts)
    ensures Inv(Exec(maxPayload, s, acts))
    decreases acts
  {
    if acts != [] {
      StepKeepsCoherent(maxPayload, s, acts[0]);
      StepKeepsHistory(maxPayload, s, acts[0]);
      RunKeepsInv(maxPayload, Step(maxPayload, s, acts[0]), acts[1..]);
    }
  }

  /**
   Refinement of a single map: in every run whose operations on the same key do not overlap, across
   evictions, promotions, tiering, pre-warming and crashes at any point, every Get returns the last
   value written under its key and not since removed.
   */
  lemma TiersRefineOneMap(maxPayload: nat, acts: seq<Action>, i: nat)
    requires AdmissibleRun(maxPayload, INITIAL, acts)
    requires i < |Exec(maxPayload, INITIAL, acts).history|
    ensures var h := Exec(maxPayload, INITIAL, acts).history;
            h[i].Got? ==> h[i].r == LastWrite(h[..i], h[i].key)
  {
    RunKeepsInv(maxPayload, INITIAL, acts);
  }

  // ---------------------------------------------------------------- where it fails without the premises

  /** What a Get of `k` that nothing interrupts returns. */
  function ReadNow(maxPayload: nat, s: State, k: Key): Option<Value> {
    if k in s.l0 && |k| <= maxPayload then Some(s.l0[k])
    else if k in s.l1 then Some(s.l1[k])
    else None
  }

  /** The steps of such a Get: one into L0, and one into L1 if that missed. */
  function GetSteps(id: nat, k: Key): seq<Action> {
    [StartGet(id, k), Advance(id, true), Advance(id, true)]
  }

  /** They answer as ReadNow says, change neither tier, and leave a promotion behind after an L1 hit. */
  lemma GetAnswers(maxPayload: nat, s: State, id: nat, k: Key)
    requires id !in s.tasks
    ensures var t := Exec(maxPayload, s, GetSteps(id, k));
            && t.l0 == s.l0 && t.l1 == s.l1
            && t.history == s.history + [Got(k, ReadNow(maxPayload, s, k))]
            && t.tasks == if (k in s.l0 && |k| <= maxPayload) || k !in s.l1 then s.tasks
                          else s.tasks[id := Task(k, Promote(s.l1[k]))]
  {
    ExecThree(maxPayload, s, StartGet(id, k), Advance(id, true), Advance(id, true));
    var t := Step(maxPayload, s, StartGet(id, k));
    var u := Step(maxPayload, t, Advance(id, true));
    assert t.tasks[id] == Task(k, GetL0);
    assert t.tasks - {id} == s.tasks;
    if !(k in s.l0 && |k| <= maxPayload) {
      assert u == t.(tasks := t.tasks[id := Task(k, GetL1)]);
      assert u.tasks - {id} == s.tasks;
      if k in s.l1 {
        assert u.tasks[id := Task(k, Promote(s.l1[k]))] == s.tasks[id := Task(k, Promote(s.l1[k]))];
      }
    }
  }

  /** What the last event of a history read. */
  function LastRead(h: seq<Event>): Option<Value> {
    if h != [] && h[|h| - 1].Got? then h[|h| - 1].r else None
  }

  /** SetToL1 puts its value in L1 and nothing elsewhere, unless it is rejected or the write fails. */
  lemma DirectSetWrites(maxPayload: nat, s: State, k: Key, v: Value, l1Ok: bool)
    ensures var t := Step(maxPayload, s, DirectSet(k, v, l1Ok));
            && (k == "" || v == [] ==> t == s)
            && (k != "" && v != [] ==>
                  && t == s.(l1 := if l1Ok then s.l1[k := v] else s.l1, history := t.history)
                  && t.history == s.history + if l1Ok then [Given(k, v), Wrote(k, v)] else [Given(k, v)])
  {
    assert s.history + [Given(k, v)] + [Wrote(k, v)] == s.history + [Given(k, v), Wrote(k, v)];
  }

  /** A pre-warming worker puts what L1 held when it was sent into L0, if L0 accepts it, and does nothing else. */
  lemma PrewarmLands(maxPayload: nat, s: State, id: nat, k: Key)
    requires id !in s.tasks
    ensures Exec(maxPayload, s, [StartPrewarm(id, k), Advance(id, true)])
            == if k in s.l1 && k != "" && s.l1[k] != [] && |s.l1[k]| <= maxPayload then s.(l0 := s.l0[k := s.l1[k]]) else s
  {
    ExecTwo(maxPayload, s, StartPrewarm(id, k), Advance(id, true));
    if k in s.l1 {
      assert s.tasks[id := Task(k, Promote(s.l1[k]))] - {id} == s.tasks;
    }
  }

  /** After SetToL1 the next Get returns its value exactly when L0 does not hold another one it can serve. */
  lemma DirectSetVisibleIff(maxPayload: nat, s: State, id: nat, k: Key, v: Value)
    requires k != "" && v != [] && id !in s.tasks
    ensures LastRead(Exec(maxPayload, s, [DirectSet(k, v, true)] + GetSteps(id, k)).history) == Some(v) <==>
            !(k in s.l0 && |k| <= maxPayload && s.l0[k] != v)
  {
    ExecConcat(maxPayload, s, [DirectSet(k, v, true)], GetSteps(id, k));
    ExecOne(maxPayload, s, DirectSet(k, v, true));
    GetAnswers(maxPayload, Step(maxPayload, s, DirectSet(k, v, true)), id, k);
  }

  /** A promotion that lands keeps the next Get fresh exactly when L1 still holds what was read. */
  lemma PromotionFreshIff(maxPayload: nat, s: State, id: nat, k: Key, v: Value, g: nat)
    requires Storable(maxPayload, k, v) && |k| <= maxPayload && L1IsLastWrite(s)
    requires id in s.tasks && s.tasks[id] == Task(k, Promote(v)) && g !in s.tasks
    ensures LastRead(Exec(maxPayload, s, [Advance(id, true)] + GetSteps(g, k)).history) == LastWrite(s.history, k) <==>
            k in s.l1 && s.l1[k] == v
  {
    ExecConcat(maxPayload, s, [Advance(id, true)], GetSteps(g, k));
    ExecOne(maxPayload, s, Advance(id, true));
    GetAnswers(maxPayload, Step(maxPayload, s, Advance(id, true)), g, k);
  }

  /** A tiering task that copies, verifies and demotes keeps the next Get fresh exactly when its copy was current. */
  lemma TieringFreshIff(maxPayload: nat, s: State, id: nat, k: Key, v: Value, g: nat)
    requires id in s.tasks && s.tasks[id] == Task(k, TierCopy(v)) && g !in s.tasks
    ensures var t := Exec(maxPayload, s, [Advance(id, true), Advance(id, true), Advance(id, true)] + GetSteps(g, k));
            LastRead(t.history) == LastWrite(s.history, k) <==> LastWrite(s.history, k) == Some(v)
  {
    var acts := [Advance(id, true), Advance(id, true), Advance(id, true)];
    ExecConcat(maxPayload, s, acts, GetSteps(g, k));
    TierSteps(maxPayload, s, id, k, v);
    GetAnswers(maxPayload, Exec(maxPayload, s, acts), g, k);
  }

  lemma TierSteps(maxPayload: nat, s: State, id: nat, k: Key, v: Value)
    requires id in s.tasks && s.tasks[id] == Task(k, TierCopy(v))
    ensures Exec(maxPayload, s, [Advance(id, true), Advance(id, true), Advance(id, true)])
            == s.(l0 := s.l0 - {k}, l1 := s.l1[k := v], tasks := s.tasks - {id})
  {
    ExecThree(maxPayload, s, Advance(id, true), Advance(id, true), Advance(id, true));
    var t := Step(maxPayload, s, Advance(id, true));
    var u := Step(maxPayload, t, Advance(id, true));
    assert t.tasks[id] == Task(k, TierVerify) && u.tasks[id] == Task(k, TierDemote);
    assert u.tasks - {id} == s.tasks - {id};
  }

  // ---------------------------------------------------------------- reads that settle

  /** Nothing can make `k` read as anything but `a`, short of a write of it. */
  ghost predicate Settled(s: State, k: Key, a: Value) {
    && k in s.l1 && s.l1[k] == a
    && (k in s.l0 ==> s.l0[k] == a)
    && forall id :: id in s.tasks && s.tasks[id].key == k ==> Harmless(s.tasks[id].op, a)
  }

  predicate Harmless(op: Op, a: Value) {
    match op
    case Promote(v) => v == a
    case TierCopy(v) => v == a
    case SetL0(_) => false
    case SetL1(_) => false
    case DelL0 => false
    case DelL1 => false
    case _ => true
  }

  predicate Writes(a: Action, k: Key) {
    (a.StartSet? || a.StartDelete? || a.DirectSet?) && a.key == k
  }

  /** Every Get of `k` in the longer history that is not in the shorter one returned `a`. */
  ghost predicate ReadSince(h: seq<Event>, h': seq<Event>, k: Key, a: Value) {
    h <= h' && forall i :: |h| <= i < |h'| && h'[i].Got? && h'[i].key == k ==> h'[i].r == Some(a)
  }

  lemma DoKeepsSettled(maxPayload: nat, s: State, id: nat, l1Ok: bool, k: Key, a: Value)
    requires Settled(s, k, a) && id in s.tasks
    ensures var t := Do(maxPayload, s, id, s.tasks[id].key, s.tasks[id].op, l1Ok);
            Settled(t, k, a) && ReadSince(s.history, t.history, k, a)
  {
    assert s.tasks[id].key == k ==> Harmless(s.tasks[id].op, a);
    var t := Do(maxPayload, s, id, s.tasks[id].key, s.tasks[id].op, l1Ok);
    forall i | i in t.tasks && t.tasks[i].key == k ensures Harmless(t.tasks[i].op, a) {
      assert i in s.tasks;
    }
  }

  lemma StepKeepsSettled(maxPayload: nat, s: State, act: Action, k: Key, a: Value)
    requires Settled(s, k, a) && !Writes(act, k)
    ensures var t := Step(maxPayload, s, act); Settled(t, k, a) && ReadSince(s.history, t.history, k, a)
  {
    if act.Advance? && act.id in s.tasks {
      DoKeepsSettled(maxPayload, s, act.id, act.l1Ok, k, a);
    }
  }

  lemma ReadSinceTransitive(h0: seq<Event>, h1: seq<Event>, h2: seq<Event>, k: Key, a: Value)
    requires ReadSince(h0, h1, k, a) && ReadSince(h1, h2, k, a)
    ensures ReadSince(h0, h2, k, a)
  {
    forall i | |h0| <= i < |h2| && h2[i].Got? && h2[i].key == k ensures h2[i].r == Some(a) {
      if i < |h1| {
        assert h1[i] == h2[i];
      }
    }
  }

  /** Once settled, every Get returns `a` in every run without a write of `k`, whatever else goes on. */
  lemma {:induction false} SettledReads(maxPayload: nat, s: State, acts: seq<Action>, k: Key, a: Value)
    requires Settled(s, k, a) && forall i :: 0 <= i < |acts| ==> !Writes(acts[i], k)
    ensures var t := Exec(maxPayload, s, acts); Settled(t, k, a) && ReadSince(s.history, t.history, k, a)
    decreases acts
  {
    if acts != [] {
      var t := Step(maxPayload, s, acts[0]);
      StepKeepsSettled(maxPayload, s, acts[0], k, a);
      SettledReads(maxPayload, t, acts[1..], k, a);
      ReadSinceTransitive(s.history, t.history, Exec(maxPayload, t, acts[1..]).history, k, a);
    }
  }

  // An overlapping Set is overtaken by an older promotion, in three stretches of one run.

  const LIMIT := 10

  function AfterRead(k: Key, a: Value): State {
    State(map[], map[k := a], map[0 := Task(k, Promote(a))], [Given(k, a), Wrote(k, a), Got(k, Some(a))])
  }

  function AfterSet(k: Key, a: Value, b: Value): State {
    State(map[k := b], map[k := b], map[0 := Task(k, Promote(a))], AfterRead(k, a).history + [Given(k, b), Wrote(k, b)])
  }

  lemma FirstStretch(k: Key, a: Value)
    requires Storable(LIMIT, k, a)
    ensures Exec(LIMIT, INITIAL, [DirectSet(k, a, true), StartGet(0, k)] + [Advance(0, true), Advance(0, true)]) == AfterRead(k, a)
  {
    ExecConcat(LIMIT, INITIAL, [DirectSet(k, a, true), StartGet(0, k)], [Advance(0, true), Advance(0, true)]);
    ExecTwo(LIMIT, INITIAL, DirectSet(k, a, true), StartGet(0, k));
    var s := Exec(LIMIT, INITIAL, [DirectSet(k, a, true), StartGet(0, k)]);
    assert s == State(map[], map[k := a], map[0 := Task(k, GetL0)], [Given(k, a), Wrote(k, a)]);
    ExecTwo(LIMIT, s, Advance(0, true), Advance(0, true));
    assert Step(LIMIT, s, Advance(0, true)) == s.(tasks := map[0 := Task(k, GetL1)]);
  }

  lemma SecondStretch(k: Key, a: Value, b: Value)
    requires Storable(LIMIT, k, b)
    ensures Step(LIMIT, Exec(LIMIT, AfterRead(k, a), [StartSet(1, k, b), Advance(1, true)]), Advance(1, true)) == AfterSet(k, a, b)
  {
    var s := AfterRead(k, a);
    ExecTwo(LIMIT, s, StartSet(1, k, b), Advance(1, true));
    var t := Step(LIMIT, s, StartSet(1, k, b));
    assert t.tasks[1] == Task(k, SetL0(b));
    var u := Step(LIMIT, t, Advance(1, true));
    assert u == State(map[k := b], map[k := a], s.tasks[1 := Task(k, SetL1(b))], s.history + [Given(k, b)]);
    assert s.tasks[1 := Task(k, SetL1(b))] - {1} == s.tasks;
  }

  lemma LastStretch(k: Key, a: Value, b: Value)
    requires Storable(LIMIT, k, a) && |k| <= LIMIT
    ensures Exec(LIMIT, Step(LIMIT, AfterSet(k, a, b), Advance(0, true)), [StartGet(2, k), Advance(2, true)]).history
            == AfterSet(k, a, b).history + [Got(k, Some(a))]
  {
    ExecTwo(LIMIT, Step(LIMIT, AfterSet(k, a, b), Advance(0, true)), StartGet(2, k), Advance(2, true));
  }

  /** So a Get can return a value that a completed Set of the same key has replaced. */
  lemma StalePromotion(k: Key, a: Value, b: Value) returns (acts: seq<Action>)
    requires Storable(LIMIT, k, a) && Storable(LIMIT, k, b) && |k| <= LIMIT
    ensures var h := Exec(LIMIT, INITIAL, acts).history;
            |h| > 0 && h[|h| - 1] == Got(k, Some(a)) && LastWrite(h[..|h| - 1], k) == Some(b)
  {
    var p := [DirectSet(k, a, true), StartGet(0, k)] + [Advance(0, true), Advance(0, true)];
    var q := [StartSet(1, k, b), Advance(1, true)];
    var r := [Advance(1, true), Advance(0, true)];
    var g := [StartGet(2, k), Advance(2, true)];
    acts := p + (q + (r + g));
    FirstStretch(k, a);
    SecondStretch(k, a, b);
    LastStretch(k, a, b);
    ExecConcat(LIMIT, INITIAL, p, q + (r + g));
    ExecConcat(LIMIT, AfterRead(k, a), q, r + g);
    var s := Exec(LIMIT, AfterRead(k, a), q);
    ExecConcat(LIMIT, s, r, g);
    ExecTwo(LIMIT, s, Advance(1, true), Advance(0, true));
    var h := AfterSet(k, a, b).history;
    assert (h + [Got(k, Some(a))])[..|h|] == h;
    assert h[|h| - 1] == Wrote(k, b);
  }

  // A Set is overtaken by a tiering task that took its copy before it.

  function Copying(k: Key, a: Value): State {
    State(map[k := a], map[k := a], map[1 := Task(k, TierCopy(a))], [Given(k, a), Wrote(k, a)])
  }

  function Overtaken(k: Key, a: Value, b: Value): State {
    State(map[k := b], map[k := b], map[1 := Task(k, TierCopy(a))], Copying(k, a).history + [Given(k, b), Wrote(k, b)])
  }

  lemma SetSteps(s: State, id: nat, k: Key, v: Value)
    requires Storable(LIMIT, k, v) && id !in s.tasks
    ensures Exec(LIMIT, s, [StartSet(id, k, v), Advance(id, true), Advance(id, true)])
            == State(s.l0[k := v], s.l1[k := v], s.tasks, s.history + [Given(k, v), Wrote(k, v)])
  {
    ExecThree(LIMIT, s, StartSet(id, k, v), Advance(id, true), Advance(id, true));
    var t := Step(LIMIT, s, StartSet(id, k, v));
    var u := Step(LIMIT, t, Advance(id, true));
    assert t.tasks[id] == Task(k, SetL0(v)) && u.tasks[id] == Task(k, SetL1(v));
    assert u.tasks - {id} == s.tasks;
    assert s.history + [Given(k, v)] + [Wrote(k, v)] == s.history + [Given(k, v), Wrote(k, v)];
  }

  /**
   Tiering can lose a Set for good: it ends with nothing under way, the replaced value in L1 and none in
   L0, and from then on every Get returns the replaced value until the next write of the key.
   */
  lemma TieringLosesSet(k: Key, a: Value, b: Value) returns (acts: seq<Action>)
    requires Storable(LIMIT, k, a) && Storable(LIMIT, k, b)
    ensures var t := Exec(LIMIT, INITIAL, acts);
            && t.tasks == map[] && LastWrite(t.history, k) == Some(b)
            && k !in t.l0 && k in t.l1 && t.l1[k] == a
            && forall more: seq<Action> | (forall i :: 0 <= i < |more| ==> !Writes(more[i], k)) ::
                 ReadSince(t.history, Exec(LIMIT, t, more).history, k, a)
  {
    var p, q := [StartSet(0, k, a), Advance(0, true), Advance(0, true)], [StartTier(1, k)];
    var r, u := [StartSet(2, k, b), Advance(2, true), Advance(2, true)], [Advance(1, true), Advance(1, true), Advance(1, true)];
    acts := p + (q + (r + u));
    ExecConcat(LIMIT, INITIAL, p, q + (r + u));
    SetSteps(INITIAL, 0, k, a);
    var s := Exec(LIMIT, INITIAL, p);
    ExecConcat(LIMIT, s, q, r + u);
    ExecOne(LIMIT, s, StartTier(1, k));
    assert Exec(LIMIT, s, q) == Copying(k, a);
    ExecConcat(LIMIT, Copying(k, a), r, u);
    SetSteps(Copying(k, a), 2, k, b);
    assert Exec(LIMIT, Copying(k, a), r) == Overtaken(k, a, b);
    TierSteps(LIMIT, Overtaken(k, a, b), 1, k, a);
    var t := Exec(LIMIT, INITIAL, acts);
    var h := t.history;
    assert h[|h| - 1] == Wrote(k, b);
    forall more: seq<Action> | forall i :: 0 <= i < |more| ==> !Writes(more[i], k)
      ensures ReadSince(t.history, Exec(LIMIT, t, more).history, k, a)
    {
      SettledReads(LIMIT, t, more, k, a);
    }
  }
}

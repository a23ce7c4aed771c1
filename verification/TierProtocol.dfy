/**
 Get, Set, Delete, promotion, tiering, pre-warming and crashes over L0 and L1
 (pkg/tieredcache/tieredcache.go) as atomic steps of concurrent tasks, for non-expiring entries.

 Each step is one call into a tier, which locks.  L0 may evict any key at any time; an L1 write, and
 the read that verifies a copy, may fail; a crash keeps L1 and nothing else.
 */
module TierProtocol {
  import opened Bytes
  import opened Payloads

  type Key = string
  type Value = seq<Byte>

  /** What a task does next. */
  datatype Op =
    | GetL0
    | GetL1
    | Promote(v: Value)
    | SetL0(v: Value)
    | SetL1(v: Value)
    | DelL0
    | DelL1
    | TierCopy(v: Value)
    | TierVerify
    | TierDemote

  datatype Task = Task(key: Key, op: Op)

  /** `Given` marks the call of a Set, the others the step at which the operation takes effect. */
  datatype Event =
    | Given(key: Key, v: Value)
    | Wrote(key: Key, v: Value)
    | Removed(key: Key)
    | Got(key: Key, r: Option<Value>)

  datatype State = State(
    l0: map<Key, Value>,
    l1: map<Key, Value>,
    tasks: map<nat, Task>,
    history: seq<Event>)

  const INITIAL := State(map[], map[], map[], [])

  datatype Action =
    | StartGet(id: nat, key: Key)
    | StartSet(id: nat, key: Key, v: Value)
    | StartDelete(id: nat, key: Key)
    | StartTier(id: nat, key: Key)
    | StartPrewarm(id: nat, key: Key)
    | Advance(id: nat, l1Ok: bool)
    | DirectSet(key: Key, v: Value, l1Ok: bool)
    | Evict(key: Key)
    | Crash

  function Spawn(s: State, id: nat, k: Key, op: Op): State {
    if id in s.tasks then s else s.(tasks := s.tasks[id := Task(k, op)])
  }

  function Log(s: State, e: Event): State {
    s.(history := s.history + [e])
  }

  function Become(s: State, id: nat, k: Key, op: Op): State {
    s.(tasks := s.tasks[id := Task(k, op)])
  }

  function End(s: State, id: nat): State {
    s.(tasks := s.tasks - {id})
  }

  /** What L0 holds once a value has been promoted: SetL0 rejects some. */
  function Promoted(maxPayload: nat, s: State, k: Key, v: Value): State {
    if Storable(maxPayload, k, v) then s.(l0 := s.l0[k := v]) else s
  }

  function Dropped(s: State, k: Key): State {
    s.(l0 := s.l0 - {k})
  }

  /** The next call of task `id`, on key `k`. */
  function Do(maxPayload: nat, s: State, id: nat, k: Key, op: Op, l1Ok: bool): State {
    match op
    case GetL0 =>
      if k in s.l0 && |k| <= maxPayload then End(Log(s, Got(k, Some(s.l0[k]))), id) else Become(s, id, k, GetL1)
    case GetL1 =>
      if k in s.l1 then Become(Log(s, Got(k, Some(s.l1[k]))), id, k, Promote(s.l1[k]))
      else End(Log(s, Got(k, None)), id)
    case Promote(v) => End(Promoted(maxPayload, s, k, v), id)
    case SetL0(v) => Become(s.(l0 := s.l0[k := v]), id, k, SetL1(v))
    case SetL1(v) => End(if l1Ok then Log(s.(l1 := s.l1[k := v]), Wrote(k, v)) else s, id)
    case DelL0 => Become(Dropped(s, k), id, k, DelL1)
    case DelL1 => End(if l1Ok then Log(s.(l1 := s.l1 - {k}), Removed(k)) else s, id)
    case TierCopy(v) => if l1Ok then Become(s.(l1 := s.l1[k := v]), id, k, TierVerify) else End(s, id)
    case TierVerify => if l1Ok && k in s.l1 then Become(s, id, k, TierDemote) else End(s, id)
    case TierDemote => End(Dropped(s, k), id)
  }

  function Step(maxPayload: nat, s: State, a: Action): State {
    match a
    case StartGet(id, k) => Spawn(s, id, k, GetL0)
    case StartSet(id, k, v) => if Storable(maxPayload, k, v) then Log(Spawn(s, id, k, SetL0(v)), Given(k, v)) else s
    case StartDelete(id, k) => Spawn(s, id, k, DelL0)
    case StartTier(id, k) => if k in s.l0 then Spawn(s, id, k, TierCopy(s.l0[k])) else s
    case StartPrewarm(id, k) => if k in s.l1 then Spawn(s, id, k, Promote(s.l1[k])) else s
    case Advance(id, l1Ok) =>
      if id in s.tasks then Do(maxPayload, s, id, s.tasks[id].key, s.tasks[id].op, l1Ok) else s
    case DirectSet(k, v, l1Ok) =>
      if k == "" || v == [] then s
      else
        var t := Log(s, Given(k, v));
        if l1Ok then Log(t.(l1 := t.l1[k := v]), Wrote(k, v)) else t
    case Evict(k) => Dropped(s, k)
    case Crash => s.(l0 := map[], tasks := map[])
  }

  function Exec(maxPayload: nat, s: State, acts: seq<Action>): State
    decreases acts
  {
    if acts == [] then s else Exec(maxPayload, Step(maxPayload, s, acts[0]), acts[1..])
  }

  lemma {:induction false} ExecConcat(maxPayload: nat, s: State, a: seq<Action>, b: seq<Action>)
    ensures Exec(maxPayload, s, a + b) == Exec(maxPayload, Exec(maxPayload, s, a), b)
    decreases a
  {
    if a == [] {
      assert a + b == b;
    } else {
      assert (a + b)[1..] == a[1..] + b;
      ExecConcat(maxPayload, Step(maxPayload, s, a[0]), a[1..], b);
    }
  }

  lemma ExecOne(maxPayload: nat, s: State, a: Action)
    ensures Exec(maxPayload, s, [a]) == Step(maxPayload, s, a)
  {
    assert [a][1..] == [];
    assert Exec(maxPayload, Step(maxPayload, s, a), []) == Step(maxPayload, s, a);
  }

  lemma ExecTwo(maxPayload: nat, s: State, a: Action, b: Action)
    ensures Exec(maxPayload, s, [a, b]) == Step(maxPayload, Step(maxPayload, s, a), b)
  {
    assert [a, b][1..] == [b];
    ExecOne(maxPayload, Step(maxPayload, s, a), b);
  }

  lemma ExecThree(maxPayload: nat, s: State, a: Action, b: Action, c: Action)
    ensures Exec(maxPayload, s, [a, b, c]) == Step(maxPayload, Step(maxPayload, Step(maxPayload, s, a), b), c)
  {
    assert [a, b, c][1..] == [b, c];
    ExecTwo(maxPayload, Step(maxPayload, s, a), b, c);
  }
}

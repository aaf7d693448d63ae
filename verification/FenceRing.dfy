/** The two-slot fence ring of the Vulkan renderer. A job stands for the command
    buffer, framebuffer and image view of one frame; Vulkan calls appear as their
    outcomes and as what they do to jobs (Vulkan specification, chapter
    "Synchronization and Cache Control", section "Fences"). */
module FenceRing {
  import opened Bytes

  const RING_SIZE: nat := 2

  /** What happened to the jobs: early are those destroyed although they had been
      submitted and no successful wait has shown them finished. */
  datatype Device = Device(submitted: set<nat>, finished: set<nat>, destroyed: multiset<nat>, early: set<nat>)

  function Submitted(d: Device, job: nat): Device {
    d.(submitted := d.submitted + {job})
  }

  function Awaited(d: Device, job: nat, ok: bool): Device {
    if ok then d.(finished := d.finished + {job}) else d
  }

  function Destroyed(d: Device, job: nat): Device {
    d.(destroyed := d.destroyed + multiset{job},
       early := if job in d.submitted && job !in d.finished then d.early + {job} else d.early)
  }

  datatype Slot = Slot(fence: bool, job: Option<nat>)

  /** leaked: jobs that were forgotten without being destroyed. */
  datatype Ring = Ring(inited: bool, idx: nat, slots: seq<Slot>, device: Device, leaked: seq<nat>) {
    predicate Valid() {
      |slots| == RING_SIZE && idx < RING_SIZE && (!inited ==> !slots[0].fence && !slots[1].fence)
    }
  }

  /** How the Vulkan calls of one ring_submit end. */
  datatype SubmitEnv = SubmitEnv(created0: bool, created1: bool, syncCreated: bool, waitOk: bool, resetOk: bool,
                                 recreated: bool, submitOk: bool)

  // ----- ring_submit and ring_shutdown on values -----

  /** Without fences: submit, wait and clean up at once. */
  function Fallback(r: Ring, job: nat, env: SubmitEnv): (t: Ring)
    requires r.Valid()
    ensures t.Valid()
  {
    var d := if env.syncCreated && env.submitOk then Awaited(Submitted(r.device, job), job, env.waitOk) else r.device;
    r.(device := Destroyed(d, job))
  }

  function Inited(r: Ring): (t: Ring)
    requires r.Valid()
    ensures t.Valid() && t.inited
  {
    r.(inited := true, slots := [r.slots[0].(fence := true), r.slots[1].(fence := true)])
  }

  /** Back at a slot: its job is awaited and destroyed, or forgotten if the wait
      fails. */
  function Reclaimed(r: Ring, i: nat, env: SubmitEnv): (t: Ring)
    requires r.Valid() && i < RING_SIZE
    ensures t.Valid() && t.inited == r.inited
  {
    var slot := r.slots[i];
    if !slot.fence || slot.job.None? then r
    else if env.waitOk then
      r.(device := Destroyed(Awaited(r.device, slot.job.value, true), slot.job.value),
         slots := r.slots[i := Slot(env.resetOk || env.recreated, None)])
    else r.(leaked := r.leaked + [slot.job.value], slots := r.slots[i := Slot(true, None)])
  }

  function Queued(r: Ring, i: nat, job: nat, env: SubmitEnv): (t: Ring)
    requires r.Valid() && i < RING_SIZE
    ensures t.Valid()
  {
    if !env.submitOk then r.(device := Destroyed(r.device, job))
    else
      r.(device := Submitted(r.device, job), slots := r.slots[i := r.slots[i].(job := Some(job))],
         leaked := if r.slots[i].job.Some? then r.leaked + [r.slots[i].job.value] else r.leaked)
  }

  function Submit(r: Ring, job: nat, env: SubmitEnv): (t: Ring)
    requires r.Valid()
    ensures t.Valid()
  {
    if !r.inited && !(env.created0 && env.created1) then Fallback(r, job, env)
    else
      var u := if r.inited then r else Inited(r);
      Queued(Reclaimed(u.(idx := (u.idx + 1) % RING_SIZE), u.idx, env), u.idx, job, env)
  }

  /** One slot at shutdown: whatever the wait returns, the job is destroyed. */
  function Closed(r: Ring, i: nat, waitOk: bool): (t: Ring)
    requires r.Valid() && i < RING_SIZE
    ensures t.Valid() && !t.slots[i].fence && t.slots[1 - i] == r.slots[1 - i]
  {
    var slot := r.slots[i];
    if !slot.fence then r
    else if slot.job.None? then r.(slots := r.slots[i := Slot(false, None)])
    else
      r.(device := Destroyed(Awaited(r.device, slot.job.value, waitOk), slot.job.value),
         slots := r.slots[i := Slot(false, None)])
  }

  function Shutdown(r: Ring, waitOk0: bool, waitOk1: bool): (t: Ring)
    requires r.Valid()
    ensures t.Valid()
  {
    if !r.inited then r else Closed(Closed(r, 0, waitOk0), 1, waitOk1).(inited := false, idx := 0)
  }

  const START: Ring := Ring(false, 0, [Slot(false, None), Slot(false, None)], Device({}, {}, multiset{}, {}), [])

  // ----- The ring in place -----

  class VkRing {
    const slots: array<Slot>
    var inited: bool
    var idx: nat
    ghost var device: Device
    ghost var leaked: seq<nat>

    ghost function Value(): Ring
      reads this, slots
    {
      Ring(inited, idx, slots[..], device, leaked)
    }

    constructor ()
      ensures Value() == START && fresh(slots)
    {
      slots := new Slot[RING_SIZE](_ => Slot(false, None));
      inited, idx, device, leaked := false, 0, Device({}, {}, multiset{}, {}), [];
      new;
      assert slots[..] == START.slots;
    }

    ghost method Destroy(job: nat)
      modifies this`device
      ensures device == Destroyed(old(device), job)
    {
      device := Destroyed(device, job);
    }

    ghost method Wait(job: nat, ok: bool)
      modifies this`device
      ensures device == Awaited(old(device), job, ok)
    {
      device := Awaited(device, job, ok);
    }

    /** Creates both fences; if one fails the others are given back. */
    method CreateFences(env: SubmitEnv) returns (ok: bool)
      requires Value().Valid() && !inited
      modifies this`inited, slots
      ensures ok == (env.created0 && env.created1)
      ensures Value() == if ok then Inited(old(Value())) else old(Value())
    {
      ghost var before := slots[..];
      var i := 0;
      while i < RING_SIZE
        invariant i <= RING_SIZE && slots.Length == RING_SIZE && !inited
        invariant i >= 1 ==> env.created0
        invariant i >= 2 ==> env.created1
        invariant forall k | 0 <= k < i :: slots[k] == before[k].(fence := true)
        invariant forall k | i <= k < RING_SIZE :: slots[k] == before[k]
      {
        var made := if i == 0 then env.created0 else env.created1;
        slots[i] := slots[i].(fence := made);
        if !made {
          var j := 0;
          while j < i
            invariant j <= i < RING_SIZE && slots.Length == RING_SIZE && !inited
            invariant forall k | 0 <= k < j || i <= k < RING_SIZE :: slots[k] == before[k]
            invariant forall k | j <= k < i :: slots[k] == before[k].(fence := true)
          {
            slots[j] := slots[j].(fence := false);
            j := j + 1;
          }
          assert slots[..] == before;
          return false;
        }
        i := i + 1;
      }
      inited := true;
      assert slots[..] == [before[0].(fence := true), before[1].(fence := true)];
      return true;
    }

    method Reclaim(i: nat, env: SubmitEnv)
      requires Value().Valid() && i < RING_SIZE
      modifies this`device, this`leaked, slots
      ensures Value() == Reclaimed(old(Value()), i, env)
    {
      ghost var r := Value();
      var slot := slots[i];
      if slot.fence && slot.job.Some? {
        if env.waitOk {
          Wait(slot.job.value, true);
          Destroy(slot.job.value);
          slots[i] := Slot(true, None);
          if !env.resetOk {
            slots[i] := Slot(env.recreated, None);
          }
        } else {
          leaked := leaked + [slot.job.value];
          slots[i] := Slot(true, None);
        }
        assert slots[..] == Reclaimed(r, i, env).slots;
      }
    }

    method RingSubmit(job: nat, env: SubmitEnv) returns (rc: int)
      requires Value().Valid()
      modifies this, slots
      ensures Value() == Submit(old(Value()), job, env)
      ensures rc == 0 <==> env.submitOk && (old(inited) || (env.created0 && env.created1))
      ensures rc == 0 || rc == -1
    {
      if !inited {
        var ok := CreateFences(env);
        if !ok {
          if env.syncCreated && env.submitOk {
            device := Submitted(device, job);
            Wait(job, env.waitOk);
          }
          Destroy(job);
          return -1;
        }
      }
      var i := idx;
      idx := (idx + 1) % RING_SIZE;
      Reclaim(i, env);
      rc := Enqueue(i, job, env);
    }

    method Enqueue(i: nat, job: nat, env: SubmitEnv) returns (rc: int)
      requires Value().Valid() && i < RING_SIZE
      modifies this`device, this`leaked, slots
      ensures Value() == Queued(old(Value()), i, job, env) && rc == (if env.submitOk then 0 else -1)
    {
      ghost var r := Value();
      if env.submitOk {
        leaked := if slots[i].job.Some? then leaked + [slots[i].job.value] else leaked;
        device := Submitted(device, job);
        slots[i] := slots[i].(job := Some(job));
        assert slots[..] == Queued(r, i, job, env).slots;
        return 0;
      }
      Destroy(job);
      return -1;
    }

    method CloseSlot(i: nat, waitOk: bool)
      requires Value().Valid() && i < RING_SIZE
      modifies this`device, slots
      ensures Value() == Closed(old(Value()), i, waitOk)
    {
      ghost var r := Value();
      var slot := slots[i];
      if slot.fence {
        if slot.job.Some? {
          Wait(slot.job.value, waitOk);
          Destroy(slot.job.value);
        }
        slots[i] := Slot(false, None);
        assert slots[..] == Closed(r, i, waitOk).slots;
      }
    }

    method RingShutdown(waitOk0: bool, waitOk1: bool)
      requires Value().Valid()
      modifies this, slots
      ensures Value() == Shutdown(old(Value()), waitOk0, waitOk1)
    {
      if !inited {
        return;
      }
      CloseSlot(0, waitOk0);
      CloseSlot(1, waitOk1);
      inited := false;
      idx := 0;
    }
  }

  // ----- Whole runs -----

  datatype Op = SubmitOp(job: nat, env: SubmitEnv) | ShutdownOp(waitOk0: bool, waitOk1: bool)

  function Do(r: Ring, op: Op): (t: Ring)
    requires r.Valid()
    ensures t.Valid()
  {
    match op
    case SubmitOp(job, env) => Submit(r, job, env)
    case ShutdownOp(w0, w1) => Shutdown(r, w0, w1)
  }

  function DoAll(ops: seq<Op>): (r: Ring)
    ensures r.Valid()
  {
    if ops == [] then START else Do(DoAll(ops[..|ops| - 1]), ops[|ops| - 1])
  }

  function Given(ops: seq<Op>): seq<nat> {
    if ops == [] then []
    else Given(ops[..|ops| - 1]) + if ops[|ops| - 1].SubmitOp? then [ops[|ops| - 1].job] else []
  }

  predicate NoRepeats(s: seq<nat>) {
    forall i, j :: 0 <= i < j < |s| ==> s[i] != s[j]
  }

  /** Every fence wait and every fence creation that is attempted succeeds. */
  predicate WaitsSucceed(r: Ring, op: Op)
    requires r.Valid()
  {
    match op
    case SubmitOp(_, env) =>
      env.waitOk && (env.resetOk || env.recreated) && (r.inited || (env.created0 && env.created1))
    case ShutdownOp(w0, w1) => w0 && w1
  }

  predicate AllSucceed(ops: seq<Op>) {
    ops != [] ==> AllSucceed(ops[..|ops| - 1]) && WaitsSucceed(DoAll(ops[..|ops| - 1]), ops[|ops| - 1])
  }

  function Retained(slots: seq<Slot>): multiset<nat>
    requires |slots| == RING_SIZE
  {
    JobOf(slots[0]) + JobOf(slots[1])
  }

  function JobOf(s: Slot): multiset<nat> {
    if s.job.Some? then multiset{s.job.value} else multiset{}
  }

  lemma RetainedUpdate(slots: seq<Slot>, i: nat, s: Slot)
    requires |slots| == RING_SIZE && i < RING_SIZE
    ensures Retained(slots[i := s]) + JobOf(slots[i]) == Retained(slots) + JobOf(s)
  {
    if i == 0 {
      assert slots[i := s][1] == slots[1];
    } else {
      assert slots[i := s][0] == slots[0];
    }
  }

  /** Nothing is leaked or destroyed early, and each job given is either
      destroyed once or in one slot. */
  predicate Clean(r: Ring, given: multiset<nat>)
    requires |r.slots| == RING_SIZE
  {
    r.leaked == [] && r.device.early == {} && given == r.device.destroyed + Retained(r.slots)
  }

  /** Fences and jobs are where they are expected between calls. */
  predicate Armed(r: Ring)
    requires |r.slots| == RING_SIZE
  {
    forall k | 0 <= k < RING_SIZE :: r.slots[k].fence == r.inited && (!r.inited ==> r.slots[k].job.None?)
  }

  lemma ReclaimClean(r: Ring, given: multiset<nat>, i: nat, env: SubmitEnv)
    requires r.Valid() && Clean(r, given) && i < RING_SIZE && r.slots[i].fence
    requires env.waitOk && (env.resetOk || env.recreated)
    ensures var t := Reclaimed(r, i, env);
            && Clean(t, given) && t.slots[i] == Slot(true, None) && t.slots[1 - i] == r.slots[1 - i]
            && t.device.submitted == r.device.submitted && t.idx == r.idx
  {
    if r.slots[i].job.Some? {
      TakenOut(r.device.destroyed, r.slots, i, Slot(true, None));
    } else {
      assert r.slots[i := Slot(true, None)] == r.slots;
    }
    hide Retained, JobOf;
  }

  /** A job leaves its slot to be destroyed, or comes into an empty one. */
  lemma TakenOut(destroyed: multiset<nat>, slots: seq<Slot>, i: nat, empty: Slot)
    requires |slots| == RING_SIZE && i < RING_SIZE && slots[i].job.Some? && empty.job.None?
    ensures destroyed + multiset{slots[i].job.value} + Retained(slots[i := empty]) == destroyed + Retained(slots)
  {
    RetainedUpdate(slots, i, empty);
    Regroup(destroyed, Retained(slots[i := empty]), multiset{slots[i].job.value}, Retained(slots));
  }

  lemma Regroup(a: multiset<nat>, b: multiset<nat>, c: multiset<nat>, d: multiset<nat>)
    requires b + c == d
    ensures a + c + b == a + d
  {
  }

  lemma PutIn(destroyed: multiset<nat>, slots: seq<Slot>, i: nat, full: Slot)
    requires |slots| == RING_SIZE && i < RING_SIZE && slots[i].job.None? && full.job.Some?
    ensures destroyed + Retained(slots[i := full]) == destroyed + Retained(slots) + multiset{full.job.value}
  {
    RetainedUpdate(slots, i, full);
    assert JobOf(slots[i]) == multiset{};
    assert JobOf(full) == multiset{full.job.value};
    hide Retained, JobOf;
  }

  lemma QueueClean(r: Ring, given: multiset<nat>, i: nat, job: nat, env: SubmitEnv)
    requires r.Valid() && Clean(r, given) && i < RING_SIZE && r.slots[i] == Slot(true, None)
    requires job !in r.device.submitted
    ensures var t := Queued(r, i, job, env);
            && Clean(t, given + multiset{job}) && t.slots[i].fence && t.slots[1 - i] == r.slots[1 - i]
            && t.device.submitted <= r.device.submitted + {job} && t.inited == r.inited
  {
    PutIn(r.device.destroyed, r.slots, i, Slot(true, Some(job)));
    hide Retained, JobOf;
  }

  lemma ArmedPair(r: Ring, i: nat)
    requires |r.slots| == RING_SIZE && r.inited && i < RING_SIZE && r.slots[i].fence && r.slots[1 - i].fence
    ensures Armed(r)
  {
    assert i == 0 || i == 1;
  }

  lemma StepReady(v: Ring, given: multiset<nat>, i: nat, job: nat, env: SubmitEnv)
    requires v.Valid() && Clean(v, given) && v.inited && i < RING_SIZE && v.slots[i].fence && v.slots[1 - i].fence
    requires env.waitOk && (env.resetOk || env.recreated) && job !in v.device.submitted
    ensures var t := Queued(Reclaimed(v, i, env), i, job, env);
            Clean(t, given + multiset{job}) && Armed(t) && t.device.submitted <= v.device.submitted + {job}
  {
    hide Reclaimed, Queued;
    ReclaimClean(v, given, i, env);
    var w := Reclaimed(v, i, env);
    QueueClean(w, given, i, job, env);
    ArmedPair(Queued(w, i, job, env), i);
  }

  lemma SubmitReady(r: Ring, given: multiset<nat>, job: nat, env: SubmitEnv)
    requires r.Valid() && Clean(r, given) && r.inited && Armed(r) && env.waitOk && (env.resetOk || env.recreated)
    requires job !in r.device.submitted
    ensures var t := Submit(r, job, env);
            Clean(t, given + multiset{job}) && Armed(t) && t.device.submitted <= r.device.submitted + {job}
  {
    hide Reclaimed, Queued;
    StepReady(r.(idx := (r.idx + 1) % RING_SIZE), given, r.idx, job, env);
  }

  lemma SubmitClean(r: Ring, given: multiset<nat>, job: nat, env: SubmitEnv)
    requires r.Valid() && Clean(r, given) && Armed(r)
    requires WaitsSucceed(r, SubmitOp(job, env)) && job !in r.device.submitted
    ensures var t := Submit(r, job, env);
            Clean(t, given + multiset{job}) && Armed(t) && t.device.submitted <= r.device.submitted + {job}
  {
    if r.inited {
      SubmitReady(r, given, job, env);
    } else {
      assert Retained(Inited(r).slots) == Retained(r.slots);
      SubmitReady(Inited(r), given, job, env);
    }
  }

  lemma CloseClean(r: Ring, given: multiset<nat>, i: nat)
    requires r.Valid() && Clean(r, given) && i < RING_SIZE && r.slots[i].fence
    ensures var t := Closed(r, i, true);
            Clean(t, given) && t.slots[i] == Slot(false, None) && t.device.submitted == r.device.submitted
  {
    RetainedUpdate(r.slots, i, Slot(false, None));
  }

  lemma ShutdownClean(r: Ring, given: multiset<nat>)
    requires r.Valid() && Clean(r, given) && Armed(r)
    ensures var t := Shutdown(r, true, true);
            Clean(t, given) && Armed(t) && !t.inited && t.device.submitted == r.device.submitted
  {
    if r.inited {
      CloseClean(r, given, 0);
      CloseClean(Closed(r, 0, true), given, 1);
    }
  }

  lemma {:induction false} RunClean(ops: seq<Op>)
    requires AllSucceed(ops) && NoRepeats(Given(ops))
    ensures Clean(DoAll(ops), multiset(Given(ops))) && Armed(DoAll(ops))
    ensures forall j | j in DoAll(ops).device.submitted :: j in Given(ops)
    decreases |ops|
  {
    if ops != [] {
      var before, op := ops[..|ops| - 1], ops[|ops| - 1];
      var g, r := Given(before), DoAll(before);
      assert Given(ops) == g + if op.SubmitOp? then [op.job] else [];
      assert forall i | 0 <= i < |g| :: g[i] == Given(ops)[i];
      RunClean(before);
      match op
      case SubmitOp(job, env) =>
        assert Given(ops)[|g|] == job;
        SubmitClean(r, multiset(g), job, env);
      case ShutdownOp(w0, w1) =>
        ShutdownClean(r, multiset(g));
    }
  }

  /** As long as waits and creations succeed, failed submits and resets included:
      at every moment each job given has been destroyed at most once, never before
      a wait showed it finished, the others are in the slots, at most two of them. */
  lemma DestroyedOnceInTime(ops: seq<Op>)
    requires AllSucceed(ops) && NoRepeats(Given(ops))
    ensures multiset(Given(ops)) == DoAll(ops).device.destroyed + Retained(DoAll(ops).slots)
    ensures DoAll(ops).device.early == {} && |Retained(DoAll(ops).slots)| <= RING_SIZE
  {
    RunClean(ops);
  }

  /** And after a shutdown all of them have been. */
  lemma AllDestroyedAfterShutdown(ops: seq<Op>)
    requires AllSucceed(ops) && NoRepeats(Given(ops)) && ops != [] && ops[|ops| - 1].ShutdownOp?
    ensures DoAll(ops).device.destroyed == multiset(Given(ops))
  {
    RunClean(ops);
    var r := DoAll(ops);
    assert !r.inited;
    assert r.slots[0].job.None? && r.slots[1].job.None?;
  }

  // ----- Whatever fails -----

  /** A submit that goes through the ring. */
  predicate Enters(r: Ring, env: SubmitEnv) {
    r.inited || (env.created0 && env.created1)
  }

  /** It comes back to a job and, with a fence, fails to see it finished or,
      without one, queues over it. */
  predicate Forgets(r: Ring, op: Op)
    requires r.Valid()
  {
    && op.SubmitOp? && Enters(r, op.env) && r.slots[r.idx].job.Some?
    && if !r.inited || r.slots[r.idx].fence then !op.env.waitOk else op.env.submitOk
  }

  function Times(s: Slot, j: nat): nat {
    if s.job == Some(j) then 1 else 0
  }

  /** How often a job was destroyed, is in a slot, or was leaked. */
  function Total(r: Ring, j: nat): nat
    requires r.Valid()
  {
    r.device.destroyed[j] + Times(r.slots[0], j) + Times(r.slots[1], j) + multiset(r.leaked)[j]
  }

  lemma ReclaimedTotal(r: Ring, i: nat, env: SubmitEnv, j: nat)
    requires r.Valid() && i < RING_SIZE
    ensures Total(Reclaimed(r, i, env), j) == Total(r, j)
    ensures Reclaimed(r, i, env).leaked != []
            <==> r.leaked != [] || (r.slots[i].fence && r.slots[i].job.Some? && !env.waitOk)
  {
  }

  lemma QueuedTotal(r: Ring, i: nat, job: nat, env: SubmitEnv, j: nat)
    requires r.Valid() && i < RING_SIZE
    ensures Total(Queued(r, i, job, env), j) == Total(r, j) + (if job == j then 1 else 0)
    ensures Queued(r, i, job, env).leaked != [] <==> r.leaked != [] || (r.slots[i].job.Some? && env.submitOk)
  {
  }

  lemma ClosedTotal(r: Ring, i: nat, waitOk: bool, j: nat)
    requires r.Valid() && i < RING_SIZE
    ensures Total(Closed(r, i, waitOk), j) == Total(r, j) && Closed(r, i, waitOk).leaked == r.leaked
  {
  }

  lemma EnteredTotal(r: Ring, i: nat, job: nat, env: SubmitEnv, j: nat)
    requires r.Valid() && i < RING_SIZE
    ensures var t, s := Queued(Reclaimed(r, i, env), i, job, env), r.slots[i];
            && Total(t, j) == Total(r, j) + (if job == j then 1 else 0)
            && (t.leaked != [] <==>
                  r.leaked != [] || (s.job.Some? && if s.fence then !env.waitOk else env.submitOk))
  {
    ReclaimedTotal(r, i, env, j);
    QueuedTotal(Reclaimed(r, i, env), i, job, env, j);
  }

  lemma SubmitTotal(r: Ring, job: nat, env: SubmitEnv, j: nat)
    requires r.Valid()
    ensures Total(Submit(r, job, env), j) == Total(r, j) + (if job == j then 1 else 0)
    ensures Submit(r, job, env).leaked != [] <==> r.leaked != [] || Forgets(r, SubmitOp(job, env))
  {
    hide Reclaimed, Queued, Fallback, Total;
    if Enters(r, env) {
      var u := if r.inited then r else Inited(r);
      var e := u.(idx := (u.idx + 1) % RING_SIZE);
      InitedTotal(r, j);
      EnteredTotal(e, u.idx, job, env, j);
    } else {
      FallbackTotal(r, job, env, j);
    }
  }

  lemma InitedTotal(r: Ring, j: nat)
    requires r.Valid()
    ensures var u := if r.inited then r else Inited(r); Total(u.(idx := (u.idx + 1) % RING_SIZE), j) == Total(r, j)
  {
  }

  lemma FallbackTotal(r: Ring, job: nat, env: SubmitEnv, j: nat)
    requires r.Valid()
    ensures Total(Fallback(r, job, env), j) == Total(r, j) + (if job == j then 1 else 0)
    ensures Fallback(r, job, env).leaked == r.leaked
  {
  }

  /** One operation adds the job it is given, and leaks as it forgets. */
  lemma DoTotal(r: Ring, op: Op, j: nat)
    requires r.Valid()
    ensures Total(Do(r, op), j) == Total(r, j) + (if op.SubmitOp? && op.job == j then 1 else 0)
    ensures Do(r, op).leaked != [] <==> r.leaked != [] || Forgets(r, op)
  {
    hide Submit, Closed;
    match op
    case SubmitOp(job, env) => SubmitTotal(r, job, env, j);
    case ShutdownOp(w0, w1) =>
      if r.inited {
        ClosedTotal(r, 0, w0, j);
        ClosedTotal(Closed(r, 0, w0), 1, w1, j);
      }
  }

  /** Whatever fails, every job given is at every moment destroyed, in a slot or
      leaked, as often as it was given. */
  lemma {:induction false} JobsConserved(ops: seq<Op>, j: nat)
    ensures multiset(Given(ops))[j] == Total(DoAll(ops), j)
    decreases |ops|
  {
    if ops != [] {
      JobsConserved(ops[..|ops| - 1], j);
      DoTotal(DoAll(ops[..|ops| - 1]), ops[|ops| - 1], j);
    }
  }

  predicate ForgetsAt(ops: seq<Op>, k: nat)
    requires k < |ops|
  {
    Forgets(DoAll(ops[..k]), ops[k])
  }

  /** A run leaks if and only if, at some operation, a wait for the job of the
      slot it reuses fails or a job without a fence is queued over. */
  lemma {:induction false} LeaksIff(ops: seq<Op>)
    ensures DoAll(ops).leaked != [] <==> exists k | 0 <= k < |ops| :: ForgetsAt(ops, k)
    decreases |ops|
  {
    hide Do, Forgets;
    if ops != [] {
      var n := |ops| - 1;
      LeaksIff(ops[..n]);
      DoTotal(DoAll(ops[..n]), ops[n], 0);
      assert ForgetsAt(ops, n) <==> Forgets(DoAll(ops[..n]), ops[n]);
      forall k: nat | k < n ensures ForgetsAt(ops[..n], k) <==> ForgetsAt(ops, k) {
        assert ops[..n][..k] == ops[..k];
      }
    }
  }

  /** A job is destroyed although it was submitted and not seen finished: the
      wait of the synchronous path, or of a shutdown, failed. */
  predicate Hurries(r: Ring, op: Op)
    requires r.Valid()
  {
    match op
    case SubmitOp(_, env) => !Enters(r, env) && env.syncCreated && env.submitOk && !env.waitOk
    case ShutdownOp(w0, w1) =>
      && r.inited
      && ((!w0 && r.slots[0].fence && r.slots[0].job.Some?) || (!w1 && r.slots[1].fence && r.slots[1].job.Some?))
  }

  /** Jobs in slots are submitted and not seen finished, and nothing else is told
      of jobs never given. */
  predicate Tracked(r: Ring, given: seq<nat>)
    requires r.Valid()
  {
    && (forall k | 0 <= k < RING_SIZE && r.slots[k].job.Some? ::
          r.slots[k].job.value in r.device.submitted && r.slots[k].job.value !in r.device.finished)
    && (r.slots[0].job.Some? ==> r.slots[0].job != r.slots[1].job)
    && (forall j | j in r.device.submitted + r.device.finished :: j in given)
  }

  lemma ReclaimHurries(r: Ring, given: seq<nat>, i: nat, env: SubmitEnv)
    requires r.Valid() && Tracked(r, given) && i < RING_SIZE
    ensures Tracked(Reclaimed(r, i, env), given) && Reclaimed(r, i, env).device.early == r.device.early
  {
  }

  lemma QueueHurries(r: Ring, given: seq<nat>, i: nat, job: nat, env: SubmitEnv)
    requires r.Valid() && Tracked(r, given) && i < RING_SIZE && job !in given
    ensures Tracked(Queued(r, i, job, env), given + [job]) && Queued(r, i, job, env).device.early == r.device.early
  {
  }

  lemma SubmitHurries(r: Ring, given: seq<nat>, job: nat, env: SubmitEnv)
    requires r.Valid() && Tracked(r, given) && job !in given
    ensures var t := Submit(r, job, env);
            && Tracked(t, given + [job])
            && t.device.early == (if Hurries(r, SubmitOp(job, env)) then r.device.early + {job} else r.device.early)
  {
    hide Reclaimed, Queued;
    if Enters(r, env) {
      var u := if r.inited then r else Inited(r);
      var e := u.(idx := (u.idx + 1) % RING_SIZE);
      ReclaimHurries(e, given, u.idx, env);
      QueueHurries(Reclaimed(e, u.idx, env), given, u.idx, job, env);
    }
  }

  lemma CloseHurries(r: Ring, given: seq<nat>, i: nat, waitOk: bool)
    requires r.Valid() && Tracked(r, given) && i < RING_SIZE
    ensures var t, s := Closed(r, i, waitOk), r.slots[i];
            && Tracked(t, given)
            && t.device.early == r.device.early + (if !waitOk && s.fence && s.job.Some? then {s.job.value} else {})
  {
  }

  lemma DoHurries(r: Ring, given: seq<nat>, op: Op)
    requires r.Valid() && Tracked(r, given) && (op.SubmitOp? ==> op.job !in given)
    ensures Tracked(Do(r, op), if op.SubmitOp? then given + [op.job] else given)
    ensures Do(r, op).device.early != {} <==> r.device.early != {} || Hurries(r, op)
  {
    match op
    case SubmitOp(job, env) => SubmitHurries(r, given, job, env);
    case ShutdownOp(w0, w1) =>
      if r.inited {
        CloseHurries(r, given, 0, w0);
        CloseHurries(Closed(r, 0, w0), given, 1, w1);
      }
  }

  predicate HurriesAt(ops: seq<Op>, k: nat)
    requires k < |ops|
  {
    Hurries(DoAll(ops[..k]), ops[k])
  }

  lemma {:induction false} RunTracked(ops: seq<Op>)
    requires NoRepeats(Given(ops))
    ensures Tracked(DoAll(ops), Given(ops))
    ensures ops != [] ==> NoRepeats(Given(ops[..|ops| - 1]))
    ensures ops != [] && ops[|ops| - 1].SubmitOp? ==> ops[|ops| - 1].job !in Given(ops[..|ops| - 1])
    decreases |ops|
  {
    if ops != [] {
      var n := |ops| - 1;
      var g := Given(ops[..n]);
      assert Given(ops) == g + if ops[n].SubmitOp? then [ops[n].job] else [];
      assert forall i | 0 <= i < |g| :: g[i] == Given(ops)[i];
      assert ops[n].SubmitOp? ==> Given(ops)[|g|] == ops[n].job;
      RunTracked(ops[..n]);
      DoHurries(DoAll(ops[..n]), g, ops[n]);
    }
  }

  /** A run of distinct jobs destroys one early if and only if such a wait failed. */
  lemma {:induction false} EarlyIff(ops: seq<Op>)
    requires NoRepeats(Given(ops))
    ensures DoAll(ops).device.early != {} <==> exists k | 0 <= k < |ops| :: HurriesAt(ops, k)
    decreases |ops|
  {
    if ops != [] {
      var n := |ops| - 1;
      RunTracked(ops);
      RunTracked(ops[..n]);
      EarlyIff(ops[..n]);
      DoHurries(DoAll(ops[..n]), Given(ops[..n]), ops[n]);
      assert HurriesAt(ops, n) <==> Hurries(DoAll(ops[..n]), ops[n]);
      forall k: nat | k < n ensures HurriesAt(ops[..n], k) <==> HurriesAt(ops, k) {
        assert ops[..n][..k] == ops[..k];
      }
    }
  }

  lemma DoAllSnoc(ops: seq<Op>, op: Op)
    ensures DoAll(ops + [op]) == Do(DoAll(ops), op)
  {
    assert (ops + [op])[..|ops|] == ops;
  }

  const FINE: SubmitEnv := SubmitEnv(true, true, true, true, true, true, true)

  /** Both happen: the third submission waits in vain for the first job. */
  lemma LeakHappens()
    ensures DoAll([SubmitOp(0, FINE), SubmitOp(1, FINE), SubmitOp(2, FINE.(waitOk := false))]).leaked == [0]
  {
    var a, b, c := SubmitOp(0, FINE), SubmitOp(1, FINE), SubmitOp(2, FINE.(waitOk := false));
    TwoSubmitted();
    DoAllSnoc([a, b], c);
    assert [a, b] + [c] == [a, b, c];
    hide DoAll;
  }

  lemma TwoSubmitted()
    ensures DoAll([SubmitOp(0, FINE), SubmitOp(1, FINE)])
            == Ring(true, 0, [Slot(true, Some(0)), Slot(true, Some(1))], Device({0, 1}, {}, multiset{}, {}), [])
  {
    var a, b := SubmitOp(0, FINE), SubmitOp(1, FINE);
    DoAllSnoc([], a);
    DoAllSnoc([a], b);
    assert [] + [a] == [a] && [a] + [b] == [a, b];
    assert DoAll([a]) == Ring(true, 1, [Slot(true, Some(0)), Slot(true, None)], Device({0}, {}, multiset{}, {}), []);
  }

  /** And the shutdown destroys a job that it waited for in vain. */
  lemma EarlyHappens()
    ensures DoAll([SubmitOp(0, FINE), ShutdownOp(false, true)]).device.early == {0}
  {
    var a, b := SubmitOp(0, FINE), ShutdownOp(false, true);
    DoAllSnoc([], a);
    DoAllSnoc([a], b);
    assert [] + [a] == [a] && [a] + [b] == [a, b];
  }
}

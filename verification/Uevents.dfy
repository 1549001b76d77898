/**
 Waiting for device events: `wait_for_uevent`, `process_add`, `process_remove` and the timeout
 of a waiter, as critical sections of one sandbox lock.  A matcher is the predicate it decides.
 */
module Uevents {
  import opened Prelude

  datatype Uevent = Uevent(action: string, devpath: string, devname: string,
                           subsystem: string, seqnum: string, iface: string)

  type Matcher = Uevent -> bool
  type Task = nat

  const SYSFS_DIR := "/sys"
  const SYSFS_MEMORY_ONLINE_PATH := "/sys/devices/system/memory"

  /** A registered watcher and the caller that holds the other end of its channel. */
  datatype Watcher = Watcher(matcher: Matcher, task: Task)

  type Slots = seq<Option<Watcher>>

  datatype Phase =
    | Registered(idx: nat)    // waiting on the channel
    | TimedOut(idx: nat)      // the timer fired; the lock is still to be taken
    | Returned(uevent: Uevent)
    | Expired                 // returned the timeout error
    | Panicked
    | Cancelled               // the caller went away

  /** A caller; `sent` is history, the event handed to its sender. */
  datatype Caller = Caller(matcher: Matcher, phase: Phase, inbox: Option<Uevent>, sent: Option<Uevent>)

  type Callers = map<Task, Caller>

  /** `owners` and `added` are history: who pushed each slot, and the events recorded by an "add". */
  datatype State = State(uevents: map<string, Uevent>, slots: Slots, callers: Callers,
                         owners: seq<Task>, added: set<Uevent>)

  datatype Step =
    | Wait(w: Task, matcher: Matcher, found: Option<string>)  // `found`: the path of the event met first
    | Process(uevent: Uevent)
    | Receive(w: Task)
    | TimerFires(w: Task)
    | TimeoutLock(w: Task)
    | Cancel(w: Task)

  const INITIAL: State := State(map[], [], map[], [], {})

  // ---------------------------------------------------------------- steps

  /** Memory that is plugged in is brought online and not recorded. */
  predicate MemoryHotAdd(u: Uevent) {
    SYSFS_MEMORY_ONLINE_PATH <= SYSFS_DIR + "/" + u.devpath + "/online"
  }

  predicate Hit(slot: Option<Watcher>, u: Uevent) {
    slot.Some? && slot.value.matcher(u)
  }

  /** A send reaches its caller only while that caller still waits on the channel. */
  function Deliver(cs: Callers, w: Task, u: Uevent): Callers {
    if w !in cs then cs
    else cs[w := cs[w].(sent := Some(u), inbox := if cs[w].phase.Registered? then Some(u) else cs[w].inbox)]
  }

  function Notify(slots: Slots, cs: Callers, u: Uevent): Callers
    decreases |slots|
  {
    if slots == [] then cs
    else Notify(slots[1..], if Hit(slots[0], u) then Deliver(cs, slots[0].value.task, u) else cs, u)
  }

  function TakeHits(slots: Slots, u: Uevent): Slots {
    seq(|slots|, i requires 0 <= i < |slots| => if Hit(slots[i], u) then None else slots[i])
  }

  function ProcessAdd(s: State, u: Uevent): State {
    if MemoryHotAdd(u) then s
    else s.(uevents := s.uevents[u.devpath := u], slots := TakeHits(s.slots, u),
            callers := Notify(s.slots, s.callers, u), added := s.added + {u})
  }

  function ProcessUevent(s: State, u: Uevent): State {
    if u.action == "add" then ProcessAdd(s, u)
    else if u.action == "remove" then s.(uevents := s.uevents - {u.devpath})
    else s
  }

  predicate Enabled(s: State, step: Step) {
    match step
    case Wait(w, matcher, found) =>
      w !in s.callers &&
      (match found
       case Some(path) => path in s.uevents && matcher(s.uevents[path])
       case None => forall path <- s.uevents :: !matcher(s.uevents[path]))
    case Process(_) => true
    case Receive(w) => w in s.callers && s.callers[w].phase.Registered? && s.callers[w].inbox.Some?
    case TimerFires(w) => w in s.callers && s.callers[w].phase.Registered? && s.callers[w].inbox.None?
    case TimeoutLock(w) => w in s.callers && s.callers[w].phase.TimedOut? && s.callers[w].phase.idx < |s.slots|
    case Cancel(w) => w in s.callers && (s.callers[w].phase.Registered? || s.callers[w].phase.TimedOut?)
  }

  function WaitForUevent(s: State, w: Task, matcher: Matcher, found: Option<string>): State
    requires Enabled(s, Wait(w, matcher, found))
  {
    match found
    case Some(path) => s.(callers := s.callers[w := Caller(matcher, Returned(s.uevents[path]), None, None)])
    case None =>
      s.(slots := s.slots + [Some(Watcher(matcher, w))], owners := s.owners + [w],
         callers := s.callers[w := Caller(matcher, Registered(|s.slots|), None, None)])
  }

  function Settle(s: State, w: Task, phase: Phase): State
    requires w in s.callers
  {
    s.(callers := s.callers[w := s.callers[w].(phase := phase)])
  }

  /** The timeout branch: take the own slot; an empty one panics. */
  function TakeOwnSlot(s: State, w: Task): State
    requires Enabled(s, TimeoutLock(w))
  {
    var idx := s.callers[w].phase.idx;
    if s.slots[idx].None? then Settle(s, w, Panicked)
    else Settle(s.(slots := s.slots[idx := None]), w, Expired)
  }

  function Next(s: State, step: Step): State
    requires Enabled(s, step)
  {
    match step
    case Wait(w, matcher, found) => WaitForUevent(s, w, matcher, found)
    case Process(u) => ProcessUevent(s, u)
    case Receive(w) => Settle(s, w, Returned(s.callers[w].inbox.value))
    case TimerFires(w) => Settle(s, w, TimedOut(s.callers[w].phase.idx))
    case TimeoutLock(w) => TakeOwnSlot(s, w)
    case Cancel(w) => Settle(s, w, Cancelled)
  }

  ghost predicate Leads(s: State, steps: seq<Step>, t: State)
    decreases |steps|
  {
    if steps == [] then s == t else Enabled(s, steps[0]) && Leads(Next(s, steps[0]), steps[1..], t)
  }

  ghost predicate Reachable(t: State) {
    exists steps :: Leads(INITIAL, steps, t)
  }

  // ---------------------------------------------------------------- the invariant

  /** The caller waits on its channel or for the lock, or is gone without a word. */
  predicate Waits(phase: Phase) { phase.Registered? || phase.TimedOut? || phase.Cancelled? }

  /** An event that was recorded by an "add" and satisfies the matcher. */
  predicate Fitting(s: State, matcher: Matcher, u: Uevent) {
    u in s.added && u.action == "add" && matcher(u)
  }

  /** A filled slot belongs to the caller that pushed it and matches no recorded event. */
  ghost predicate SlotOk(s: State, i: nat)
    requires i < |s.slots| && |s.owners| == |s.slots|
  {
    s.slots[i].Some? ==>
      var v := s.slots[i].value;
      && v.task == s.owners[i] && v.task in s.callers && s.callers[v.task].matcher == v.matcher
      && s.callers[v.task].sent.None?
      && Waits(s.callers[v.task].phase)
      && forall path <- s.uevents :: !v.matcher(s.uevents[path])
  }

  /** The slot is still the caller's own registration, or was emptied by a send to that caller. */
  ghost predicate OwnSlot(s: State, w: Task, idx: nat)
    requires w in s.callers
  {
    && idx < |s.slots| == |s.owners| && s.owners[idx] == w
    && (s.slots[idx].None? <==> s.callers[w].sent.Some?)
  }

  ghost predicate CallerOk(s: State, w: Task)
    requires w in s.callers
  {
    var c := s.callers[w];
    && (c.sent.Some? ==> Fitting(s, c.matcher, c.sent.value))
    && match c.phase
       case Registered(idx) => OwnSlot(s, w, idx) && c.inbox == c.sent
       case TimedOut(idx) => OwnSlot(s, w, idx)
       case Returned(u) => Fitting(s, c.matcher, u)
       case _ => true
  }

  ghost predicate Inv(s: State) {
    && |s.owners| == |s.slots|
    && (forall i, j | 0 <= i < j < |s.owners| :: s.owners[i] != s.owners[j])
    && (forall w <- s.owners :: w in s.callers)
    && (forall i | 0 <= i < |s.slots| :: SlotOk(s, i))
    && (forall w <- s.callers :: CallerOk(s, w))
    && (forall path <- s.uevents :: s.uevents[path] in s.added)
    && (forall u <- s.added :: u.action == "add")
  }

  // ---------------------------------------------------------------- an "add" notifies its watchers

  predicate DistinctTasks(slots: Slots) {
    forall i, j | 0 <= i < j < |slots| && slots[i].Some? && slots[j].Some? ::
      slots[i].value.task != slots[j].value.task
  }

  ghost predicate HitOf(slots: Slots, u: Uevent, w: Task) {
    exists i | 0 <= i < |slots| :: Hit(slots[i], u) && slots[i].value.task == w
  }

  /** A hit delivers to its caller, once, and to nobody else. */
  lemma {:induction false} NotifyAt(slots: Slots, cs: Callers, u: Uevent, w: Task)
    requires DistinctTasks(slots) && w in cs
    ensures w in Notify(slots, cs, u)
    ensures HitOf(slots, u, w) ==> Notify(slots, cs, u)[w] == Deliver(cs, w, u)[w]
    ensures !HitOf(slots, u, w) ==> Notify(slots, cs, u)[w] == cs[w]
    decreases |slots|
  {
    if slots != [] {
      var rest := slots[1..];
      var cs1 := if Hit(slots[0], u) then Deliver(cs, slots[0].value.task, u) else cs;
      NotifyAt(rest, cs1, u, w);
      HitOfRest(slots, u, w);
      if slots[0].Some? && slots[0].value.task == w {
        forall i | 0 <= i < |rest| && rest[i].Some? ensures rest[i].value.task != w {
          assert slots[i + 1] == rest[i];
        }
      }
    }
  }

  lemma HitOfRest(slots: Slots, u: Uevent, w: Task)
    requires slots != []
    ensures HitOf(slots, u, w) <==> (Hit(slots[0], u) && slots[0].value.task == w) || HitOf(slots[1..], u, w)
  {
    var rest := slots[1..];
    if HitOf(slots, u, w) {
      var i :| 0 <= i < |slots| && Hit(slots[i], u) && slots[i].value.task == w;
      assert i == 0 || rest[i - 1] == slots[i];
    }
    if HitOf(rest, u, w) {
      var i :| 0 <= i < |rest| && Hit(rest[i], u) && rest[i].value.task == w;
      assert slots[i + 1] == rest[i];
    }
  }

  lemma {:induction false} NotifyKeys(slots: Slots, cs: Callers, u: Uevent)
    ensures Notify(slots, cs, u).Keys == cs.Keys
    decreases |slots|
  {
    if slots != [] {
      NotifyKeys(slots[1..], if Hit(slots[0], u) then Deliver(cs, slots[0].value.task, u) else cs, u);
    }
  }

  lemma TasksDistinct(s: State)
    requires Inv(s)
    ensures DistinctTasks(s.slots)
  {
    forall i, j | 0 <= i < j < |s.slots| && s.slots[i].Some? && s.slots[j].Some?
      ensures s.slots[i].value.task != s.slots[j].value.task
    {
      assert SlotOk(s, i) && SlotOk(s, j);
    }
  }

  /** The caller of a filled slot is hit exactly when its own slot is. */
  lemma HitIsOwn(s: State, u: Uevent, i: nat)
    requires Inv(s) && i < |s.slots|
    ensures HitOf(s.slots, u, s.owners[i]) <==> Hit(s.slots[i], u)
  {
    assert SlotOk(s, i);
    if HitOf(s.slots, u, s.owners[i]) {
      var j :| 0 <= j < |s.slots| && Hit(s.slots[j], u) && s.slots[j].value.task == s.owners[i];
      assert SlotOk(s, j);
    }
  }

  lemma AddKeepsSlot(s: State, u: Uevent, i: nat)
    requires Inv(s) && u.action == "add" && !MemoryHotAdd(u) && i < |s.slots|
    ensures SlotOk(ProcessAdd(s, u), i)
  {
    assert SlotOk(s, i);
    if s.slots[i].Some? && !Hit(s.slots[i], u) {
      TasksDistinct(s);
      NotifyAt(s.slots, s.callers, u, s.owners[i]);
      HitIsOwn(s, u, i);
    }
  }

  lemma AddKeepsCaller(s: State, u: Uevent, w: Task)
    requires Inv(s) && u.action == "add" && !MemoryHotAdd(u) && w in s.callers
    ensures w in ProcessAdd(s, u).callers && CallerOk(ProcessAdd(s, u), w)
  {
    var t := ProcessAdd(s, u);
    var c := s.callers[w];
    assert CallerOk(s, w);
    TasksDistinct(s);
    NotifyAt(s.slots, s.callers, u, w);
    if HitOf(s.slots, u, w) {
      var j :| 0 <= j < |s.slots| && Hit(s.slots[j], u) && s.slots[j].value.task == w;
      assert SlotOk(s, j);
      if c.phase.Registered? || c.phase.TimedOut? { assert c.phase.idx == j; }
    } else if c.phase.Registered? || c.phase.TimedOut? {
      HitIsOwn(s, u, c.phase.idx);
    }
  }

  lemma AddKeeps(s: State, u: Uevent)
    requires Inv(s) && u.action == "add"
    ensures Inv(ProcessAdd(s, u))
  {
    if !MemoryHotAdd(u) {
      var t := ProcessAdd(s, u);
      NotifyKeys(s.slots, s.callers, u);
      forall i | 0 <= i < |t.slots| ensures SlotOk(t, i) { AddKeepsSlot(s, u, i); }
      forall w <- t.callers ensures CallerOk(t, w) { AddKeepsCaller(s, u, w); }
      hide SlotOk, CallerOk, Notify, MemoryHotAdd;
    }
  }

  // ---------------------------------------------------------------- the other steps

  lemma RemoveKeeps(s: State, u: Uevent)
    requires Inv(s)
    ensures Inv(s.(uevents := s.uevents - {u.devpath}))
  {
    var t := s.(uevents := s.uevents - {u.devpath});
    forall i | 0 <= i < |t.slots| ensures SlotOk(t, i) { assert SlotOk(s, i); }
    forall w <- t.callers ensures CallerOk(t, w) { assert CallerOk(s, w); }
  }

  lemma WaitKeeps(s: State, w: Task, matcher: Matcher, found: Option<string>)
    requires Inv(s) && Enabled(s, Wait(w, matcher, found))
    ensures Inv(WaitForUevent(s, w, matcher, found))
  {
    var t := WaitForUevent(s, w, matcher, found);
    forall i | 0 <= i < |t.slots| ensures SlotOk(t, i) {
      if i < |s.slots| { assert SlotOk(s, i); }
    }
    forall v <- t.callers ensures CallerOk(t, v) {
      if v != w { assert CallerOk(s, v); }
    }
  }

  lemma SettleKeeps(s: State, w: Task, phase: Phase)
    requires Inv(s) && w in s.callers && CallerOk(Settle(s, w, phase), w)
    requires phase.TimedOut? || phase.Cancelled? || s.callers[w].sent.Some?
    ensures Inv(Settle(s, w, phase))
  {
    var t := Settle(s, w, phase);
    forall i | 0 <= i < |t.slots| ensures SlotOk(t, i) { assert SlotOk(s, i); }
    forall v <- t.callers ensures CallerOk(t, v) {
      if v != w { assert CallerOk(s, v); }
    }
  }

  lemma ExpireKeeps(s: State, w: Task)
    requires Inv(s) && Enabled(s, TimeoutLock(w)) && s.slots[s.callers[w].phase.idx].Some?
    ensures Inv(TakeOwnSlot(s, w))
  {
    var t := TakeOwnSlot(s, w);
    assert CallerOk(s, w);
    forall i | 0 <= i < |t.slots| ensures SlotOk(t, i) { assert SlotOk(s, i); }
    forall v <- t.callers ensures CallerOk(t, v) { assert CallerOk(s, v); }
  }

  lemma StepKeeps(s: State, step: Step)
    requires Inv(s) && Enabled(s, step)
    ensures Inv(Next(s, step))
  {
    match step
    case Wait(w, matcher, found) => WaitKeeps(s, w, matcher, found);
    case Process(u) =>
      if u.action == "add" { AddKeeps(s, u); } else if u.action == "remove" { RemoveKeeps(s, u); }
    case Receive(w) =>
      assert CallerOk(s, w);
      SettleKeeps(s, w, Returned(s.callers[w].inbox.value));
    case TimerFires(w) =>
      assert CallerOk(s, w);
      SettleKeeps(s, w, TimedOut(s.callers[w].phase.idx));
    case TimeoutLock(w) =>
      assert CallerOk(s, w);
      if s.slots[s.callers[w].phase.idx].None? { SettleKeeps(s, w, Panicked); } else { ExpireKeeps(s, w); }
    case Cancel(w) =>
      assert CallerOk(s, w);
      SettleKeeps(s, w, Cancelled);
  }

  lemma {:induction false} RunKeeps(s: State, steps: seq<Step>, t: State)
    requires Inv(s) && Leads(s, steps, t)
    ensures Inv(t)
    decreases |steps|
  {
    if steps != [] {
      StepKeeps(s, steps[0]);
      RunKeeps(Next(s, steps[0]), steps[1..], t);
    }
  }

  lemma ReachableInv(t: State)
    requires Reachable(t)
    ensures Inv(t)
  {
    var steps :| Leads(INITIAL, steps, t);
    RunKeeps(INITIAL, steps, t);
  }

  // ---------------------------------------------------------------- what is recorded

  /** The device is a memory block, by a path without a slash in front. */
  predicate MemoryBlock(u: Uevent) {
    "devices/system/memory" <= u.devpath + "/online"
  }

  /** A path as the kernel writes it, with a slash in front, is never taken for memory. */
  lemma HotAddExactly(u: Uevent)
    ensures MemoryHotAdd(u) <==> MemoryBlock(u)
    ensures u.devpath != "" && u.devpath[0] == '/' ==> !MemoryHotAdd(u)
  {
    var block := "devices/system/memory";
    assert SYSFS_MEMORY_ONLINE_PATH == "/sys/" + block;
    assert SYSFS_DIR + "/" + u.devpath + "/online" == "/sys/" + (u.devpath + "/online");
    CommonStart("/sys/", block, u.devpath + "/online");
    assert u.devpath != "" ==> (u.devpath + "/online")[0] == u.devpath[0] && block[0] == 'd';
  }

  lemma CommonStart(start: string, a: string, b: string)
    ensures start + a <= start + b <==> a <= b
  {
    var n := |start|;
    assert (start + a)[n..] == a && (start + b)[n..] == b;
    if start + a <= start + b {
      assert b[..|a|] == (start + b)[..n + |a|][n..] == a;
    }
    if a <= b {
      assert (start + b)[..n + |a|] == start + b[..|a|] == start + a;
    }
  }

  function Lookup(m: map<string, Uevent>, p: string): Option<Uevent> {
    if p in m then Some(m[p]) else None
  }

  /** The step is an event about path `p`: an "add" of anything but memory, or a "remove". */
  predicate About(step: Step, p: string) {
    step.Process? && step.uevent.devpath == p &&
    (step.uevent.action == "remove" || (step.uevent.action == "add" && !MemoryBlock(step.uevent)))
  }

  lemma StepRecords(s: State, step: Step, p: string)
    requires Enabled(s, step)
    ensures Lookup(Next(s, step).uevents, p) ==
      if !About(step, p) then Lookup(s.uevents, p)
      else if step.uevent.action == "add" then Some(step.uevent) else None
  {
    if step.Process? { HotAddExactly(step.uevent); }
    hide MemoryHotAdd, MemoryBlock;
  }

  /** Among the steps, the `i`-th is the last one about `p`. */
  ghost predicate LastAbout(steps: seq<Step>, p: string, i: nat) {
    && i < |steps| && About(steps[i], p)
    && forall j | i < j < |steps| :: !About(steps[j], p)
  }

  /** After any steps a path is as its last event left it, or as it was. */
  lemma {:induction false} RunRecords(s: State, steps: seq<Step>, t: State, p: string)
    requires Leads(s, steps, t)
    ensures forall i: nat | LastAbout(steps, p, i) ::
      Lookup(t.uevents, p) == if steps[i].uevent.action == "add" then Some(steps[i].uevent) else None
    ensures (forall i | 0 <= i < |steps| :: !About(steps[i], p)) ==> Lookup(t.uevents, p) == Lookup(s.uevents, p)
    decreases |steps|
  {
    if steps != [] {
      var rest := steps[1..];
      StepRecords(s, steps[0], p);
      hide About, Lookup, Next, Enabled;
      RunRecords(Next(s, steps[0]), rest, t, p);
      forall i: nat | LastAbout(steps, p, i)
        ensures Lookup(t.uevents, p) == if steps[i].uevent.action == "add" then Some(steps[i].uevent) else None
      {
        if i == 0 {
          forall j | 0 <= j < |rest| ensures !About(rest[j], p) { assert rest[j] == steps[j + 1]; }
        } else {
          forall j | i - 1 < j < |rest| ensures !About(rest[j], p) { assert rest[j] == steps[j + 1]; }
          assert rest[i - 1] == steps[i] && LastAbout(rest, p, i - 1);
        }
      }
      if forall i | 0 <= i < |steps| :: !About(steps[i], p) {
        forall j | 0 <= j < |rest| ensures !About(rest[j], p) { assert rest[j] == steps[j + 1]; }
      }
    }
  }

  /** The latest event about `p` is the "add" of `u`. */
  ghost predicate LatestAdd(steps: seq<Step>, p: string, u: Uevent) {
    exists i: nat :: LastAbout(steps, p, i) && steps[i].uevent == u && u.action == "add"
  }

  lemma {:induction false} SomeLast(steps: seq<Step>, p: string, n: nat) returns (i: nat)
    requires n < |steps| && About(steps[n], p)
    ensures LastAbout(steps, p, i)
    decreases |steps| - n
  {
    if forall j | n < j < |steps| :: !About(steps[j], p) {
      i := n;
    } else {
      var j :| n < j < |steps| && About(steps[j], p);
      i := SomeLast(steps, p, j);
    }
  }

  /** Over every run the map holds, for each path, its latest "add" without a later "remove", and nothing else. */
  lemma RecordedExactly(steps: seq<Step>, t: State, p: string, u: Uevent)
    requires Leads(INITIAL, steps, t)
    ensures Lookup(t.uevents, p) == Some(u) <==> LatestAdd(steps, p, u)
  {
    RunRecords(INITIAL, steps, t, p);
    if n :| 0 <= n < |steps| && About(steps[n], p) {
      var i := SomeLast(steps, p, n);
      forall k: nat | LastAbout(steps, p, k) ensures k == i {}
    }
  }

  /** While the latest event about a path is a matching "add", a caller returns at once and never registers. */
  lemma RecordedIsFound(steps: seq<Step>, t: State, p: string, u: Uevent, w: Task, matcher: Matcher)
    requires Leads(INITIAL, steps, t) && LatestAdd(steps, p, u) && matcher(u)
    ensures !Enabled(t, Wait(w, matcher, None))
    ensures w !in t.callers ==>
      Enabled(t, Wait(w, matcher, Some(p))) && Next(t, Wait(w, matcher, Some(p))).callers[w].phase == Returned(u)
  {
    RecordedExactly(steps, t, p, u);
  }

  // ---------------------------------------------------------------- theorems over every run

  /** No lost wake-up: a live watcher matches no recorded event; a waiting caller that one matches was sent an event. */
  lemma NoLostWakeUp(t: State, path: string)
    requires Reachable(t) && path in t.uevents
    ensures forall i | 0 <= i < |t.slots| && t.slots[i].Some? :: !t.slots[i].value.matcher(t.uevents[path])
    ensures forall w <- t.callers | t.callers[w].phase.Registered? && t.callers[w].matcher(t.uevents[path]) ::
      t.callers[w].inbox.Some?
  {
    ReachableInv(t);
    forall i | 0 <= i < |t.slots| && t.slots[i].Some? ensures !t.slots[i].value.matcher(t.uevents[path]) {
      assert SlotOk(t, i);
    }
    forall w <- t.callers | t.callers[w].phase.Registered? && t.callers[w].matcher(t.uevents[path])
      ensures t.callers[w].inbox.Some?
    {
      assert CallerOk(t, w) && SlotOk(t, t.callers[w].phase.idx);
    }
  }

  /** A watcher stays only while its caller waits, or after it went away; a caller that returned has none. */
  lemma WatchersWait(t: State, i: nat)
    requires Reachable(t) && i < |t.slots| && t.slots[i].Some? && t.slots[i].value.task in t.callers
    ensures Waits(t.callers[t.slots[i].value.task].phase)
  {
    ReachableInv(t);
    assert SlotOk(t, i);
  }

  /** An "add" wakes every waiting caller whose matcher it satisfies, unless an earlier event already did. */
  lemma AddWakesEveryMatch(t: State, u: Uevent, w: Task)
    requires Reachable(t) && u.action == "add" && !MemoryHotAdd(u)
    requires w in t.callers && t.callers[w].phase.Registered? && t.callers[w].matcher(u)
    ensures w in ProcessAdd(t, u).callers
    ensures ProcessAdd(t, u).callers[w].inbox == if t.callers[w].inbox.Some? then t.callers[w].inbox else Some(u)
  {
    ReachableInv(t);
    var idx := t.callers[w].phase.idx;
    assert CallerOk(t, w) && SlotOk(t, idx);
    TasksDistinct(t);
    NotifyAt(t.slots, t.callers, u, w);
    HitIsOwn(t, u, idx);
  }

  /** Whatever a caller returns matches its matcher and came from an "add". */
  lemma ReturnedFits(t: State, w: Task)
    requires Reachable(t) && w in t.callers && t.callers[w].phase.Returned?
    ensures var u := t.callers[w].phase.uevent; t.callers[w].matcher(u) && u in t.added && u.action == "add"
  {
    ReachableInv(t);
    assert CallerOk(t, w);
  }

  lemma {:induction false} AddedByRun(s: State, steps: seq<Step>, t: State, u: Uevent)
    requires Leads(s, steps, t)
    ensures u in t.added <==>
      u in s.added || (Process(u) in steps && u.action == "add" && !MemoryBlock(u))
    decreases |steps|
  {
    if steps != [] {
      if steps[0] == Process(u) { HotAddExactly(u); }
      hide MemoryBlock, MemoryHotAdd;
      AddedByRun(Next(s, steps[0]), steps[1..], t, u);
      assert Process(u) in steps <==> Process(u) == steps[0] || Process(u) in steps[1..];
    }
  }

  /** An event is returned only after the run processed it. */
  lemma ReturnedWasProcessed(steps: seq<Step>, t: State, w: Task)
    requires Leads(INITIAL, steps, t) && w in t.callers && t.callers[w].phase.Returned?
    ensures var u := t.callers[w].phase.uevent;
      t.callers[w].matcher(u) && Process(u) in steps && u.action == "add" && !MemoryBlock(u)
  {
    ReturnedFits(t, w);
    AddedByRun(INITIAL, steps, t, t.callers[w].phase.uevent);
  }

  /** Slots stay where they are; a filled one stays as it is or becomes empty, an empty one stays empty. */
  ghost predicate OnlyEmptied(a: Slots, b: Slots) {
    |a| <= |b| && forall i | 0 <= i < |a| :: b[i] == a[i] || b[i].None?
  }

  lemma StepOnlyEmpties(s: State, step: Step)
    requires Enabled(s, step)
    ensures OnlyEmptied(s.slots, Next(s, step).slots)
  {
  }

  lemma {:induction false} SlotsNeverReused(s: State, steps: seq<Step>, t: State)
    requires Leads(s, steps, t)
    ensures OnlyEmptied(s.slots, t.slots)
    decreases |steps|
  {
    if steps != [] {
      StepOnlyEmpties(s, steps[0]);
      SlotsNeverReused(Next(s, steps[0]), steps[1..], t);
    }
  }

  /**
   At a timeout the slot is the caller's own registration, or it is empty because a matching
   event was sent to that caller; the code panics in exactly the second case.
   */
  lemma TimeoutPanicsExactlyWhenSent(t: State, w: Task)
    requires Reachable(t) && w in t.callers && t.callers[w].phase.TimedOut?
    ensures Enabled(t, TimeoutLock(w))
    ensures var c := t.callers[w]; var slot := t.slots[c.phase.idx];
      && (slot.Some? ==> slot.value == Watcher(c.matcher, w))
      && (slot.None? ==> c.sent.Some? && Fitting(t, c.matcher, c.sent.value))
      && (Next(t, TimeoutLock(w)).callers[w].phase == if c.sent.Some? then Panicked else Expired)
  {
    ReachableInv(t);
    assert CallerOk(t, w) && SlotOk(t, t.callers[w].phase.idx);
  }

  /** Such a run exists for every matcher and every event it accepts. */
  lemma TimeoutCanPanic(matcher: Matcher, u: Uevent)
    requires matcher(u) && u.action == "add" && !MemoryHotAdd(u)
    ensures exists t ::
      && Leads(INITIAL, [Wait(0, matcher, None), TimerFires(0), Process(u), TimeoutLock(0)], t)
      && 0 in t.callers && t.callers[0].phase == Panicked
  {
    var s1 := Next(INITIAL, Wait(0, matcher, None));
    var s2 := Next(s1, TimerFires(0));
    var s3 := Next(s2, Process(u));
    assert s2.slots == [Some(Watcher(matcher, 0))];
    assert s3.slots[0].None?;
    NotifyKeys(s2.slots, s2.callers, u);
    NotifyAt(s2.slots, s2.callers, u, 0);
    var t := Next(s3, TimeoutLock(0));
    var steps := [Wait(0, matcher, None), TimerFires(0), Process(u), TimeoutLock(0)];
    assert steps[1..] == [TimerFires(0), Process(u), TimeoutLock(0)];
    assert steps[1..][1..] == [Process(u), TimeoutLock(0)] && steps[1..][1..][1..] == [TimeoutLock(0)];
    assert Leads(s3, [TimeoutLock(0)], t);
    assert Leads(s2, [Process(u), TimeoutLock(0)], t);
    assert Leads(s1, [TimerFires(0), Process(u), TimeoutLock(0)], t);
  }

  // ---------------------------------------------------------------- the sandbox fields, changed in place

  class Sandbox {
    var uevents: map<string, Uevent>
    var slots: Slots
    var callers: Callers
    ghost var owners: seq<Task>
    ghost var added: set<Uevent>

    ghost function Now(): State
      reads this
    {
      State(uevents, slots, callers, owners, added)
    }

    ghost predicate Valid()
      reads this
    {
      Inv(Now())
    }

    constructor ()
      ensures Valid() && Now() == INITIAL
    {
      uevents, slots, callers, owners, added := map[], [], map[], [], {};
    }

    /** The notification loop: a matching slot is emptied and its event sent. */
    method NotifyWatchers(u: Uevent)
      modifies this`slots, this`callers
      ensures slots == TakeHits(old(slots), u) && callers == Notify(old(slots), old(callers), u)
    {
      var i := 0;
      while i < |slots|
        invariant 0 <= i <= |slots| == |old(slots)|
        invariant forall j | 0 <= j < i :: slots[j] == if Hit(old(slots)[j], u) then None else old(slots)[j]
        invariant forall j | i <= j < |slots| :: slots[j] == old(slots)[j]
        invariant Notify(old(slots)[i..], callers, u) == Notify(old(slots), old(callers), u)
      {
        assert old(slots)[i..][0] == slots[i] && old(slots)[i..][1..] == old(slots)[i + 1..];
        if slots[i].Some? && slots[i].value.matcher(u) {
          var w := slots[i].value.task;
          slots := slots[i := None];
          if w in callers {
            var c := callers[w];
            callers := callers[w := c.(sent := Some(u), inbox := if c.phase.Registered? then Some(u) else c.inbox)];
          }
        }
        i := i + 1;
      }
    }

    /** `process`. */
    method HandleUevent(u: Uevent)
      requires Valid()
      modifies this
      ensures Valid() && Now() == Next(old(Now()), Process(u))
    {
      StepKeeps(Now(), Process(u));
      hide Inv, Notify, TakeHits, MemoryHotAdd;
      if u.action == "add" {
        if !MemoryHotAdd(u) {
          uevents := uevents[u.devpath := u];
          added := added + {u};
          NotifyWatchers(u);
        }
      } else if u.action == "remove" {
        uevents := uevents - {u.devpath};
      }
    }

    /** The first critical section of `wait_for_uevent`; `found` is the event it met first, if any. */
    method WaitFor(w: Task, matcher: Matcher) returns (ghost found: Option<string>)
      requires Valid() && w !in callers
      modifies this
      ensures Enabled(old(Now()), Wait(w, matcher, found))
      ensures Valid() && Now() == Next(old(Now()), Wait(w, matcher, found))
    {
      var todo := uevents.Keys;
      while todo != {}
        invariant todo <= uevents.Keys
        invariant forall path <- uevents.Keys - todo :: !matcher(uevents[path])
        decreases todo
      {
        var path :| path in todo;
        if matcher(uevents[path]) {
          found := Some(path);
          StepKeeps(Now(), Wait(w, matcher, found));
          callers := callers[w := Caller(matcher, Returned(uevents[path]), None, None)];
          return;
        }
        todo := todo - {path};
      }
      found := None;
      StepKeeps(Now(), Wait(w, matcher, found));
      callers := callers[w := Caller(matcher, Registered(|slots|), None, None)];
      slots := slots + [Some(Watcher(matcher, w))];
      owners := owners + [w];
    }

    /** The timeout branch of `wait_for_uevent`: the result says whether it panicked. */
    method Expire(w: Task) returns (panicked: bool)
      requires Valid() && w in callers && callers[w].phase.TimedOut?
      modifies this
      ensures Valid() && Enabled(old(Now()), TimeoutLock(w)) && Now() == Next(old(Now()), TimeoutLock(w))
      ensures panicked <==> old(callers[w].sent.Some?)
    {
      assert CallerOk(Now(), w);
      StepKeeps(Now(), TimeoutLock(w));
      hide Inv;
      var idx := callers[w].phase.idx;
      panicked := slots[idx].None?;
      if panicked {
        callers := callers[w := callers[w].(phase := Panicked)];
      } else {
        slots := slots[idx := None];
        callers := callers[w := callers[w].(phase := Expired)];
      }
    }
  }
}

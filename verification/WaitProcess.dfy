/**
 Waiting for a process: many callers of `do_wait_process` race with the reaper and with each
 other under the sandbox lock.  The protocol is a transition system whose steps are the
 critical sections; the reachable states are those of every interleaving.
 */
module WaitProcesses {
  import opened Prelude

  type Cid = string
  type Eid = string
  type Pid = int
  type Task = nat

  /** A process is found under its container and its exec id. */
  type Key = (Cid, Eid)

  const CHANNEL_CAPACITY: nat := 100

  /** `exited` says that the sender of the exit signal was dropped. */
  datatype Process = Process(pid: Pid, exitCode: int, exited: bool, watchers: seq<Task>)

  datatype Phase =
    | Rejected            // no such process when the call came in
    | Waiting             // registered, waiting for the exit signal or for the lock
    | Done(status: int)   // returned Ok
    | Failed              // returned an error after registering
    | Quit                // the caller went away

  /** A caller of `do_wait_process` with the contents of its own channel. */
  datatype Waiter = Waiter(cid: Cid, pid: Pid, phase: Phase, inbox: seq<int>)

  /**
   The sandbox and its callers.  The last four fields are history: every pid started with its container, the
   codes the reaper collected, the pids whose entries waiters removed, in order, and the
   containers ever removed.
   */
  datatype State = State(
    containers: map<Cid, Pid>,
    procs: map<Key, Process>,
    waiters: map<Task, Waiter>,
    started: map<Pid, Cid>,
    reaped: map<Pid, int>,
    removals: seq<Pid>,
    dismissed: set<Cid>)

  datatype Step =
    | CreateContainer(cid: Cid)
    | StartProcess(cid: Cid, eid: Eid, pid: Pid, init: bool)
    | RemoveContainer(cid: Cid)
    | Register(w: Task, cid: Cid, eid: Eid)
    | Reap(pid: Pid, code: int)
    | Finish(w: Task)
    | Cancel(w: Task)

  const INITIAL: State := State(map[], map[], map[], map[], map[], [], {})

  // ---------------------------------------------------------------- lookups

  /** The process of a container with this pid. */
  ghost function FindPid(procs: map<Key, Process>, cid: Cid, pid: Pid): (r: Option<Key>)
    ensures r.Some? ==> r.value in procs && r.value.0 == cid && procs[r.value].pid == pid
    ensures r.None? ==> forall k <- procs | k.0 == cid :: procs[k].pid != pid
  {
    if k :| k in procs && k.0 == cid && procs[k].pid == pid then Some(k) else None
  }

  /** The process with this pid in any container. */
  ghost function FindAnywhere(procs: map<Key, Process>, pid: Pid): (r: Option<Key>)
    ensures r.Some? ==> r.value in procs && procs[r.value].pid == pid
    ensures r.None? ==> forall k <- procs :: procs[k].pid != pid
  {
    if k :| k in procs && procs[k].pid == pid then Some(k) else None
  }

  /** `find_container_process`: an empty exec id means the container's first process. */
  ghost function FindContainerProcess(s: State, cid: Cid, eid: Eid): (r: Option<Key>)
    ensures r.Some? ==> r.value in s.procs && r.value.0 == cid && cid in s.containers
  {
    if cid !in s.containers then None
    else if eid == "" then FindPid(s.procs, cid, s.containers[cid])
    else if (cid, eid) in s.procs then Some((cid, eid))
    else None
  }

  // ---------------------------------------------------------------- steps

  /** Send the code to every registered caller that has not gone away. */
  function Broadcast(ws: map<Task, Waiter>, to: seq<Task>, code: int): (r: map<Task, Waiter>)
    ensures r.Keys == ws.Keys
    decreases |to|
  {
    if to == [] then ws
    else
      var w := to[0];
      var ws1 := if w in ws && ws[w].phase.Waiting? then ws[w := ws[w].(inbox := ws[w].inbox + [code])] else ws;
      Broadcast(ws1, to[1..], code)
  }

  /** Either the signal was given or the process entry, and with it the sender, is gone. */
  ghost predicate Signalled(s: State, pid: Pid) {
    forall k <- s.procs | s.procs[k].pid == pid :: s.procs[k].exited
  }

  /** A sender for the caller's channel still exists. */
  ghost predicate SenderAlive(s: State, w: Task) {
    exists k <- s.procs :: w in s.procs[k].watchers
  }

  ghost predicate Enabled(s: State, step: Step) {
    match step
    case CreateContainer(cid) => cid !in s.containers
    case StartProcess(cid, eid, pid, init) =>
      cid in s.containers && (cid, eid) !in s.procs && pid !in s.started && pid !in s.reaped
    case RemoveContainer(cid) => cid in s.containers
    case Register(w, cid, eid) => w !in s.waiters
    case Reap(pid, code) => pid !in s.reaped
    case Finish(w) => w in s.waiters && s.waiters[w].phase.Waiting? && Signalled(s, s.waiters[w].pid)
    case Cancel(w) => w in s.waiters && s.waiters[w].phase.Waiting?
  }

  ghost function Settle(s: State, w: Task, phase: Phase): State
    requires w in s.waiters
  {
    s.(waiters := s.waiters[w := s.waiters[w].(phase := phase)])
  }

  /** The second critical section of `do_wait_process`. */
  ghost function FinishWait(s: State, w: Task): State
    requires w in s.waiters
  {
    var x := s.waiters[w];
    if x.cid !in s.containers then Settle(s, w, Failed)
    else
      match FindPid(s.procs, x.cid, x.pid)
      case Some(k) =>
        var p := s.procs[k];
        var s1 := s.(waiters := Broadcast(s.waiters, p.watchers, p.exitCode),
                     procs := s.procs - {k}, removals := s.removals + [p.pid]);
        Settle(s1, w, Done(p.exitCode))
      case None =>
        if x.inbox != [] then Settle(s, w, Done(x.inbox[0])) else Settle(s, w, Failed)
  }

  ghost function RegisterWait(s: State, w: Task, cid: Cid, eid: Eid): State {
    match FindContainerProcess(s, cid, eid)
    case Some(k) =>
      var p := s.procs[k];
      s.(procs := s.procs[k := p.(watchers := p.watchers + [w])],
         waiters := s.waiters[w := Waiter(cid, p.pid, Waiting, [])])
    case None => s.(waiters := s.waiters[w := Waiter(cid, -1, Rejected, [])])
  }

  ghost function ReapExit(s: State, pid: Pid, code: int): State {
    var s1 := s.(reaped := s.reaped[pid := code]);
    match FindAnywhere(s.procs, pid)
    case Some(k) => s1.(procs := s.procs[k := s.procs[k].(exitCode := code, exited := true)])
    case None => s1
  }

  ghost function Next(s: State, step: Step): State
    requires Enabled(s, step)
  {
    match step
    case CreateContainer(cid) => s.(containers := s.containers[cid := -1])
    case StartProcess(cid, eid, pid, init) =>
      s.(containers := if init then s.containers[cid := pid] else s.containers,
         procs := s.procs[(cid, eid) := Process(pid, 0, false, [])], started := s.started[pid := cid])
    case RemoveContainer(cid) =>
      s.(containers := s.containers - {cid},
         procs := map k | k in s.procs && k.0 != cid :: s.procs[k], dismissed := s.dismissed + {cid})
    case Register(w, cid, eid) => RegisterWait(s, w, cid, eid)
    case Reap(pid, code) => ReapExit(s, pid, code)
    case Finish(w) => FinishWait(s, w)
    case Cancel(w) => Settle(s, w, Quit)
  }

  /** The run ends in `t`. */
  ghost predicate Leads(s: State, steps: seq<Step>, t: State)
    decreases |steps|
  {
    if steps == [] then s == t else Enabled(s, steps[0]) && Leads(Next(s, steps[0]), steps[1..], t)
  }

  // ---------------------------------------------------------------- the invariant

  predicate NoDuplicates<T(==)>(xs: seq<T>) {
    forall i, j | 0 <= i < j < |xs| :: xs[i] != xs[j]
  }

  ghost predicate UniquePids(s: State) {
    forall k <- s.procs, k' <- s.procs | s.procs[k].pid == s.procs[k'].pid :: k == k'
  }

  /** A live entry: signalled exactly when reaped, with the code; its callers wait with empty channels. */
  ghost predicate ProcessOk(s: State, k: Key)
    requires k in s.procs
  {
    var p := s.procs[k];
    && k.0 in s.containers && p.pid in s.started && s.started[p.pid] == k.0 && p.pid !in s.removals
    && (p.exited <==> p.pid in s.reaped)
    && (p.exited ==> p.exitCode == s.reaped[p.pid])
    && NoDuplicates(p.watchers)
    && forall w <- p.watchers ::
      w in s.waiters && s.waiters[w].cid == k.0 && s.waiters[w].pid == p.pid &&
      (s.waiters[w].phase.Waiting? || s.waiters[w].phase.Quit?)
  }

  ghost predicate Live(s: State, pid: Pid) {
    exists k <- s.procs :: s.procs[k].pid == pid
  }

  ghost predicate Listed(s: State, w: Task)
    requires w in s.waiters
  {
    exists k <- s.procs :: s.procs[k].pid == s.waiters[w].pid && w in s.procs[k].watchers
  }

  /**
   A registered caller is on the list of its live process and its channel is empty; once the
   entry was removed by a waiter, the channel holds exactly the recorded code.
   */
  ghost predicate WaiterOk(s: State, w: Task)
    requires w in s.waiters
  {
    var x := s.waiters[w];
    match x.phase
    case Waiting =>
      && x.pid in s.started && (x.cid in s.containers || x.cid in s.dismissed)
      && if Live(s, x.pid) then Listed(s, w) && x.inbox == []
         else if x.pid in s.removals then x.pid in s.reaped && x.inbox == [s.reaped[x.pid]]
         else x.cid in s.dismissed && x.inbox == []
    case Done(status) => x.pid in s.removals && x.pid in s.reaped && status == s.reaped[x.pid] && |x.inbox| <= 1
    case Failed => x.cid in s.dismissed && |x.inbox| <= 1
    case Quit => |x.inbox| <= 1
    case Rejected => x.inbox == []
  }

  ghost predicate Inv(s: State) {
    && UniquePids(s)
    && (forall k <- s.procs :: ProcessOk(s, k))
    && (forall w <- s.waiters :: WaiterOk(s, w))
    && NoDuplicates(s.removals)
    && (forall pid <- s.removals :: pid in s.started && pid in s.reaped)
  }

  // ---------------------------------------------------------------- every step keeps it

  lemma {:induction false} BroadcastReaches(ws: map<Task, Waiter>, to: seq<Task>, code: int, u: Task)
    requires NoDuplicates(to)
    ensures u in ws && u in to && ws[u].phase.Waiting? ==>
      Broadcast(ws, to, code)[u] == ws[u].(inbox := ws[u].inbox + [code])
    ensures u in ws && !(u in to && ws[u].phase.Waiting?) ==> Broadcast(ws, to, code)[u] == ws[u]
    decreases |to|
  {
    if to != [] {
      var w := to[0];
      var ws1 := if w in ws && ws[w].phase.Waiting? then ws[w := ws[w].(inbox := ws[w].inbox + [code])] else ws;
      BroadcastReaches(ws1, to[1..], code, u);
      assert u in to <==> u == w || u in to[1..];
      assert w !in to[1..];
    }
  }

  /** A step that removes no entry and takes nobody off a list. */
  ghost predicate OnlyGrows(s: State, t: State) {
    && s.procs.Keys == t.procs.Keys
    && (forall k <- s.procs :: s.procs[k].pid == t.procs[k].pid && s.procs[k].watchers <= t.procs[k].watchers)
    && s.started == t.started && s.removals == t.removals && s.dismissed == t.dismissed
    && s.containers.Keys <= t.containers.Keys
    && (forall pid <- s.reaped :: pid in t.reaped && s.reaped[pid] == t.reaped[pid])
  }

  lemma Undisturbed(s: State, t: State, u: Task)
    requires OnlyGrows(s, t)
    requires u in s.waiters && u in t.waiters && t.waiters[u] == s.waiters[u] && WaiterOk(s, u)
    ensures WaiterOk(t, u)
  {
    var x := s.waiters[u];
    if x.phase.Waiting? {
      if Live(s, x.pid) {
        var k :| k in s.procs && s.procs[k].pid == x.pid && u in s.procs[k].watchers;
        assert t.procs[k].pid == x.pid && u in t.procs[k].watchers;
      }
    }
  }

  lemma GrowthKeeps(s: State, t: State)
    requires Inv(s) && OnlyGrows(s, t)
    requires s.waiters.Keys <= t.waiters.Keys && forall u <- s.waiters :: t.waiters[u] == s.waiters[u]
    requires forall u <- t.waiters :: u in s.waiters || WaiterOk(t, u)
    requires forall k <- t.procs :: ProcessOk(t, k)
    ensures Inv(t)
  {
    forall u <- t.waiters ensures WaiterOk(t, u) {
      if u in s.waiters { Undisturbed(s, t, u); }
    }
    hide WaiterOk, ProcessOk;
  }

  lemma CreateKeeps(s: State, cid: Cid)
    requires Inv(s) && cid !in s.containers
    ensures Inv(Next(s, CreateContainer(cid)))
  {
    var t := Next(s, CreateContainer(cid));
    forall k <- t.procs ensures ProcessOk(t, k) { assert ProcessOk(s, k); }
    GrowthKeeps(s, t);
  }

  lemma StartKeeps(s: State, cid: Cid, eid: Eid, pid: Pid, init: bool)
    requires Inv(s) && Enabled(s, StartProcess(cid, eid, pid, init))
    ensures Inv(Next(s, StartProcess(cid, eid, pid, init)))
  {
    var t := Next(s, StartProcess(cid, eid, pid, init));
    forall k <- s.procs ensures s.procs[k].pid != pid { assert ProcessOk(s, k); }
    assert ProcessOk(t, (cid, eid));
    hide ProcessOk, WaiterOk;
    forall k <- t.procs ensures ProcessOk(t, k) {
      if k != (cid, eid) { SameEntry(s, t, k); }
    }
    forall w <- t.waiters ensures WaiterOk(t, w) {
      StartedBeside(s, t, (cid, eid), w);
    }
  }

  /** A fresh process beside the others leaves a caller in order. */
  lemma StartedBeside(s: State, t: State, k: Key, w: Task)
    requires w in s.waiters && WaiterOk(s, w) && k !in s.procs && k in t.procs && t.procs[k].pid !in s.started
    requires t == s.(containers := t.containers, procs := s.procs[k := t.procs[k]], started := t.started)
    requires s.containers.Keys <= t.containers.Keys && s.started.Keys <= t.started.Keys
    ensures WaiterOk(t, w)
  {
    var x := s.waiters[w];
    if x.phase.Waiting? && Live(s, x.pid) {
      var j :| j in s.procs && s.procs[j].pid == x.pid && w in s.procs[j].watchers;
      assert t.procs[j] == s.procs[j];
    }
  }

  lemma DismissKeeps(s: State, cid: Cid)
    requires Inv(s) && cid in s.containers
    ensures Inv(Next(s, RemoveContainer(cid)))
  {
    var t := Next(s, RemoveContainer(cid));
    forall k <- t.procs ensures ProcessOk(t, k) { assert ProcessOk(s, k); }
    forall w <- t.waiters ensures WaiterOk(t, w) {
      assert WaiterOk(s, w);
      var x := s.waiters[w];
      if x.phase.Waiting? && Live(s, x.pid) {
        var k :| k in s.procs && s.procs[k].pid == x.pid && w in s.procs[k].watchers;
        assert ProcessOk(s, k) && k.0 == x.cid;
        if x.cid != cid { assert t.procs[k] == s.procs[k]; }
      }
    }
  }

  lemma RegisterKeeps(s: State, w: Task, cid: Cid, eid: Eid)
    requires Inv(s) && w !in s.waiters
    ensures Inv(RegisterWait(s, w, cid, eid))
  {
    hide FindContainerProcess, FindPid, WaiterOk, ProcessOk, Inv, OnlyGrows;
    var t := RegisterWait(s, w, cid, eid);
    forall k <- t.procs ensures ProcessOk(t, k) { RegisterAt(s, w, cid, eid, k); }
    RegisteredOk(s, w, cid, eid);
    RegisterGrows(s, w, cid, eid);
    GrowthKeeps(s, t);
  }

  lemma RegisterGrows(s: State, w: Task, cid: Cid, eid: Eid)
    ensures OnlyGrows(s, RegisterWait(s, w, cid, eid))
  {
    hide FindContainerProcess;
  }

  lemma RegisteredOk(s: State, w: Task, cid: Cid, eid: Eid)
    requires Inv(s) && w !in s.waiters
    ensures WaiterOk(RegisterWait(s, w, cid, eid), w)
  {
    hide FindContainerProcess, FindPid;
    var t := RegisterWait(s, w, cid, eid);
    var r := FindContainerProcess(s, cid, eid);
    if r.Some? { assert ProcessOk(s, r.value) && w in t.procs[r.value].watchers; }
  }

  lemma RegisterAt(s: State, w: Task, cid: Cid, eid: Eid, k: Key)
    requires Inv(s) && w !in s.waiters && k in RegisterWait(s, w, cid, eid).procs
    ensures ProcessOk(RegisterWait(s, w, cid, eid), k)
  {
    hide FindContainerProcess, FindPid, WaiterOk, ProcessOk;
    var t := RegisterWait(s, w, cid, eid);
    if FindContainerProcess(s, cid, eid) == Some(k) {
      JoinedList(s, t, k, w);
    } else {
      SameEntry(s, t, k);
    }
  }

  /** An entry that a step leaves alone stays in order. */
  lemma SameEntry(s: State, t: State, k: Key)
    requires k in s.procs && ProcessOk(s, k) && k in t.procs && t.procs[k] == s.procs[k]
    requires s.containers.Keys <= t.containers.Keys && s.removals == t.removals && s.reaped == t.reaped
    requires forall pid <- s.started :: pid in t.started && t.started[pid] == s.started[pid]
    requires forall w <- s.waiters :: w in t.waiters && t.waiters[w] == s.waiters[w]
    ensures ProcessOk(t, k)
  {
  }

  /** A new caller at the end of the list. */
  lemma JoinedList(s: State, t: State, k: Key, w: Task)
    requires k in s.procs && ProcessOk(s, k) && w !in s.waiters
    requires t == s.(procs := s.procs[k := s.procs[k].(watchers := s.procs[k].watchers + [w])],
                     waiters := s.waiters[w := Waiter(k.0, s.procs[k].pid, Waiting, [])])
    ensures ProcessOk(t, k)
  {
    forall u <- t.procs[k].watchers ensures u == w || u in s.procs[k].watchers {
    }
  }

  lemma ReapKeeps(s: State, pid: Pid, code: int)
    requires Inv(s) && pid !in s.reaped
    ensures Inv(ReapExit(s, pid, code))
  {
    hide FindAnywhere, WaiterOk, ProcessOk, Inv, OnlyGrows;
    var t := ReapExit(s, pid, code);
    forall k <- t.procs ensures ProcessOk(t, k) { ReapAt(s, pid, code, k); }
    ReapGrows(s, pid, code);
    GrowthKeeps(s, t);
  }

  lemma ReapGrows(s: State, pid: Pid, code: int)
    requires pid !in s.reaped
    ensures OnlyGrows(s, ReapExit(s, pid, code))
  {
    hide FindAnywhere;
  }

  lemma ReapAt(s: State, pid: Pid, code: int, k: Key)
    requires Inv(s) && pid !in s.reaped && k in ReapExit(s, pid, code).procs
    ensures ProcessOk(ReapExit(s, pid, code), k)
  {
    hide FindAnywhere, WaiterOk;
    assert ProcessOk(s, k);
  }

  lemma SettleKeeps(s: State, w: Task, phase: Phase)
    requires Inv(s) && w in s.waiters && s.waiters[w].phase.Waiting?
    requires WaiterOk(Settle(s, w, phase), w) && !phase.Waiting?
    requires phase.Quit? || !Live(s, s.waiters[w].pid)
    ensures Inv(Settle(s, w, phase))
  {
    var t := Settle(s, w, phase);
    forall k <- t.procs ensures ProcessOk(t, k) { assert ProcessOk(s, k); }
    forall u <- t.waiters ensures WaiterOk(t, u) {
      if u != w {
        assert WaiterOk(s, u) && Listed(t, u) == Listed(s, u);
      }
    }
  }

  /** The winner of the race: it takes the code, tells every other caller and removes the entry. */
  lemma WinnerKeeps(s: State, w: Task, k: Key)
    requires Inv(s) && Enabled(s, Finish(w)) && s.waiters[w].cid in s.containers
    requires FindPid(s.procs, s.waiters[w].cid, s.waiters[w].pid) == Some(k)
    ensures Inv(FinishWait(s, w))
  {
    var t := FinishWait(s, w);
    var p := s.procs[k];
    assert ProcessOk(s, k);
    forall j <- t.procs ensures ProcessOk(t, j) {
      assert ProcessOk(s, j) && s.procs[j].pid != p.pid;
      forall u <- t.procs[j].watchers
        ensures u in t.waiters && t.waiters[u].cid == j.0 && t.waiters[u].pid == s.procs[j].pid
        ensures t.waiters[u].phase.Waiting? || t.waiters[u].phase.Quit?
      {
        BroadcastReaches(s.waiters, p.watchers, p.exitCode, u);
      }
    }
    forall u <- t.waiters ensures WaiterOk(t, u) { WinnerTells(s, w, k, u); }
  }

  lemma WinnerTells(s: State, w: Task, k: Key, u: Task)
    requires Inv(s) && Enabled(s, Finish(w)) && s.waiters[w].cid in s.containers && u in s.waiters
    requires FindPid(s.procs, s.waiters[w].cid, s.waiters[w].pid) == Some(k)
    ensures u in FinishWait(s, w).waiters && WaiterOk(FinishWait(s, w), u)
  {
    var t := FinishWait(s, w);
    var p := s.procs[k];
    assert ProcessOk(s, k);
    BroadcastReaches(s.waiters, p.watchers, p.exitCode, u);
    BroadcastReaches(s.waiters, p.watchers, p.exitCode, w);
    assert WaiterOk(s, u) && WaiterOk(s, w);
    var x := s.waiters[u];
    if u != w && x.phase.Waiting? {
      if x.pid == p.pid {
        assert Live(s, x.pid) && !Live(t, x.pid);
      } else {
        if Live(s, x.pid) {
          var j :| j in s.procs && s.procs[j].pid == x.pid && u in s.procs[j].watchers;
          assert t.procs[j] == s.procs[j];
        }
        assert u !in p.watchers;
      }
    }
  }

  /** A registered caller with a live process finds it under its own container. */
  lemma LiveIsFound(s: State, w: Task)
    requires Inv(s) && w in s.waiters && s.waiters[w].phase.Waiting?
    ensures var x := s.waiters[w];
      Live(s, x.pid) <==> x.cid in s.containers && FindPid(s.procs, x.cid, x.pid).Some?
  {
    var x := s.waiters[w];
    assert WaiterOk(s, w);
    if Live(s, x.pid) {
      var k :| k in s.procs && s.procs[k].pid == x.pid && w in s.procs[k].watchers;
      assert ProcessOk(s, k);
    }
  }

  lemma FinishKeeps(s: State, w: Task)
    requires Inv(s) && Enabled(s, Finish(w))
    ensures Inv(FinishWait(s, w))
  {
    var x := s.waiters[w];
    LiveIsFound(s, w);
    var r := FindPid(s.procs, x.cid, x.pid);
    if x.cid in s.containers && r.Some? {
      WinnerKeeps(s, w, r.value);
    } else {
      assert WaiterOk(s, w);
      var phase := FinishWait(s, w).waiters[w].phase;
      assert FinishWait(s, w) == Settle(s, w, phase);
      SettleKeeps(s, w, phase);
    }
  }

  lemma StepKeeps(s: State, step: Step)
    requires Inv(s) && Enabled(s, step)
    ensures Inv(Next(s, step))
  {
    match step
    case CreateContainer(cid) => CreateKeeps(s, cid);
    case StartProcess(cid, eid, pid, init) => StartKeeps(s, cid, eid, pid, init);
    case RemoveContainer(cid) => DismissKeeps(s, cid);
    case Register(w, cid, eid) => RegisterKeeps(s, w, cid, eid);
    case Reap(pid, code) => ReapKeeps(s, pid, code);
    case Finish(w) => FinishKeeps(s, w);
    case Cancel(w) =>
      assert WaiterOk(s, w);
      SettleKeeps(s, w, Quit);
  }

  // ---------------------------------------------------------------- theorems over every run

  lemma {:induction false} RunKeeps(s: State, steps: seq<Step>, t: State)
    requires Inv(s) && Leads(s, steps, t)
    ensures Inv(t)
    decreases |steps|
  {
    if steps != [] {
      StepKeeps(s, steps[0]);
      RunKeeps(Next(s, steps[0]), steps[1..], t);
    }
  }

  ghost predicate Reachable(t: State) {
    exists steps :: Leads(INITIAL, steps, t)
  }

  lemma ReachableInv(t: State)
    requires Reachable(t)
    ensures Inv(t)
  {
    var steps :| Leads(INITIAL, steps, t);
    RunKeeps(INITIAL, steps, t);
  }

  // ---------------------------------------------------------------- the process a call names

  /** The process a request names: that of the exec id, or for an empty id the container's first one. */
  ghost predicate Named(s: State, cid: Cid, eid: Eid, pid: Pid) {
    && cid in s.containers
    && if eid == "" then pid == s.containers[cid] && exists k <- s.procs :: k.0 == cid && s.procs[k].pid == pid
       else (cid, eid) in s.procs && pid == s.procs[(cid, eid)].pid
  }

  /** A call waits for the process it names, and is rejected if and only if there is none. */
  lemma RegisterNames(s: State, w: Task, cid: Cid, eid: Eid)
    requires Enabled(s, Register(w, cid, eid))
    ensures var x := Next(s, Register(w, cid, eid)).waiters[w];
      && x.cid == cid && x.inbox == []
      && (if x.phase.Waiting? then Named(s, cid, eid, x.pid)
          else x.phase.Rejected? && forall pid :: !Named(s, cid, eid, pid))
  {
  }

  lemma {:induction false} BroadcastKeepsNames(ws: map<Task, Waiter>, to: seq<Task>, code: int, u: Task)
    requires u in ws
    ensures var x := Broadcast(ws, to, code)[u]; x.cid == ws[u].cid && x.pid == ws[u].pid && x.phase == ws[u].phase
    decreases |to|
  {
    if to != [] {
      var w := to[0];
      var ws1 := if w in ws && ws[w].phase.Waiting? then ws[w := ws[w].(inbox := ws[w].inbox + [code])] else ws;
      BroadcastKeepsNames(ws1, to[1..], code, u);
    }
  }

  /** No step changes what a caller waits for, nor revives a rejected call. */
  lemma StepKeepsNames(s: State, step: Step, w: Task)
    requires Enabled(s, step) && w in s.waiters
    ensures var t := Next(s, step);
      && w in t.waiters && t.waiters[w].cid == s.waiters[w].cid && t.waiters[w].pid == s.waiters[w].pid
      && (s.waiters[w].phase.Rejected? ==> t.waiters[w].phase.Rejected?)
  {
    if step.Finish? {
      var x := s.waiters[step.w];
      var found := FindPid(s.procs, x.cid, x.pid);
      if found.Some? {
        var p := s.procs[found.value];
        BroadcastKeepsNames(s.waiters, p.watchers, p.exitCode, w);
      }
      hide Broadcast, FindPid;
    }
  }

  lemma {:induction false} RunKeepsNames(s: State, steps: seq<Step>, t: State, w: Task)
    requires Leads(s, steps, t) && w in s.waiters
    ensures w in t.waiters && t.waiters[w].cid == s.waiters[w].cid && t.waiters[w].pid == s.waiters[w].pid
    ensures s.waiters[w].phase.Rejected? ==> t.waiters[w].phase.Rejected?
    decreases |steps|
  {
    if steps != [] {
      StepKeepsNames(s, steps[0], w);
      hide Enabled, Next;
      RunKeepsNames(Next(s, steps[0]), steps[1..], t, w);
    }
  }

  /** What the history fields say of one step. */
  ghost predicate StepHistory(s: State, step: Step, t: State) {
    && t.reaped == (if step.Reap? then s.reaped[step.pid := step.code] else s.reaped)
    && t.started == (if step.StartProcess? then s.started[step.pid := step.cid] else s.started)
    && t.dismissed == (if step.RemoveContainer? then s.dismissed + {step.cid} else s.dismissed)
    && (step.Reap? ==> step.pid !in s.reaped) && (step.StartProcess? ==> step.pid !in s.started)
  }

  lemma StepIsHistory(s: State, step: Step)
    requires Enabled(s, step)
    ensures StepHistory(s, step, Next(s, step))
  {
    hide FindContainerProcess, FindAnywhere, FindPid, Broadcast;
  }

  ghost predicate StartedIn(steps: seq<Step>, pid: Pid, cid: Cid) {
    exists step <- steps :: step.StartProcess? && step.pid == pid && step.cid == cid
  }

  /** The history fields are those of the run: what was reaped, started and removed since `s`. */
  lemma {:induction false} RunIsHistory(s: State, steps: seq<Step>, t: State, pid: Pid, cid: Cid)
    requires Leads(s, steps, t)
    ensures pid in t.reaped && pid !in s.reaped ==> Reap(pid, t.reaped[pid]) in steps
    ensures pid in s.reaped ==> pid in t.reaped && t.reaped[pid] == s.reaped[pid]
    ensures forall code | Reap(pid, code) in steps :: pid in t.reaped
    ensures cid in t.dismissed <==> cid in s.dismissed || RemoveContainer(cid) in steps
    ensures pid !in s.started ==> (pid in t.started && t.started[pid] == cid ==> StartedIn(steps, pid, cid))
    ensures pid in s.started ==> pid in t.started && t.started[pid] == s.started[pid]
    ensures StartedIn(steps, pid, cid) ==> pid in t.started
    decreases |steps|
  {
    if steps != [] {
      StepIsHistory(s, steps[0]);
      hide Enabled, Next;
      var s1 := Next(s, steps[0]);
      assert StepHistory(s, steps[0], s1);
      RunIsHistory(s1, steps[1..], t, pid, cid);
      assert forall step :: step in steps <==> step == steps[0] || step in steps[1..];
    }
  }

  /** The step decides which pid is a container's first process. */
  predicate AboutFirst(step: Step, cid: Cid) {
    step == CreateContainer(cid) || step == RemoveContainer(cid) || (step.StartProcess? && step.cid == cid && step.init)
  }

  function FirstPid(containers: map<Cid, Pid>, cid: Cid): Option<Pid> {
    if cid in containers then Some(containers[cid]) else None
  }

  lemma StepFirst(s: State, step: Step, cid: Cid)
    requires Enabled(s, step)
    ensures FirstPid(Next(s, step).containers, cid) ==
      if !AboutFirst(step, cid) then FirstPid(s.containers, cid)
      else if step.StartProcess? then Some(step.pid) else if step.CreateContainer? then Some(-1) else None
  {
    hide FindContainerProcess, FindAnywhere, FindPid, Broadcast;
  }

  ghost predicate LastFirst(steps: seq<Step>, cid: Cid, i: nat) {
    i < |steps| && AboutFirst(steps[i], cid) && forall j | i < j < |steps| :: !AboutFirst(steps[j], cid)
  }

  /** Over every run the first process of a container is the one last started as such. */
  lemma {:induction false} FirstByRun(s: State, steps: seq<Step>, t: State, cid: Cid)
    requires Leads(s, steps, t)
    ensures forall i: nat | LastFirst(steps, cid, i) ::
      FirstPid(t.containers, cid) ==
        if steps[i].StartProcess? then Some(steps[i].pid) else if steps[i].CreateContainer? then Some(-1) else None
    ensures (forall i | 0 <= i < |steps| :: !AboutFirst(steps[i], cid)) ==>
      FirstPid(t.containers, cid) == FirstPid(s.containers, cid)
    decreases |steps|
  {
    if steps != [] {
      var rest := steps[1..];
      StepFirst(s, steps[0], cid);
      hide AboutFirst, FirstPid, Next, Enabled;
      FirstByRun(Next(s, steps[0]), rest, t, cid);
      forall i: nat | LastFirst(steps, cid, i)
        ensures FirstPid(t.containers, cid) ==
          if steps[i].StartProcess? then Some(steps[i].pid) else if steps[i].CreateContainer? then Some(-1) else None
      {
        if i == 0 {
          forall j | 0 <= j < |rest| ensures !AboutFirst(rest[j], cid) { assert rest[j] == steps[j + 1]; }
        } else {
          forall j | i - 1 < j < |rest| ensures !AboutFirst(rest[j], cid) { assert rest[j] == steps[j + 1]; }
          assert rest[i - 1] == steps[i] && LastFirst(rest, cid, i - 1);
        }
      }
      if forall i | 0 <= i < |steps| :: !AboutFirst(steps[i], cid) {
        forall j | 0 <= j < |rest| ensures !AboutFirst(rest[j], cid) { assert rest[j] == steps[j + 1]; }
      }
    }
  }

  ghost predicate StartedAs(steps: seq<Step>, k: Key, pid: Pid) {
    exists step <- steps :: step.StartProcess? && (step.cid, step.eid) == k && step.pid == pid
  }

  lemma StepEntry(s: State, step: Step, k: Key)
    requires Enabled(s, step) && k in Next(s, step).procs
    ensures var pid := Next(s, step).procs[k].pid;
      (k in s.procs && s.procs[k].pid == pid) || (step.StartProcess? && (step.cid, step.eid) == k && step.pid == pid)
  {
    hide FindContainerProcess, FindAnywhere, FindPid, Broadcast;
  }

  /** The entry of an exec id is a process that was started under it. */
  lemma {:induction false} EntryByRun(s: State, steps: seq<Step>, t: State, k: Key)
    requires Leads(s, steps, t) && k in t.procs
    ensures (k in s.procs && s.procs[k].pid == t.procs[k].pid) || StartedAs(steps, k, t.procs[k].pid)
    decreases |steps|
  {
    if steps != [] {
      var s1 := Next(s, steps[0]);
      if k in s1.procs { StepEntry(s, steps[0], k); }
      hide Enabled, Next;
      EntryByRun(s1, steps[1..], t, k);
      assert steps[0] in steps && forall step <- steps[1..] :: step in steps;
    }
  }

  lemma DoneIsRecorded(t: State, w: Task)
    requires Inv(t) && w in t.waiters && t.waiters[w].phase.Done?
    ensures t.waiters[w].pid in t.reaped && t.waiters[w].phase.status == t.reaped[t.waiters[w].pid]
  {
    assert WaiterOk(t, w);
  }

  /**
   A call that returns Ok returns the code with which the reaper collected the process that the
   request named when it came in.
   */
  lemma OkIsOfNamedProcess(before: seq<Step>, s: State, w: Task, cid: Cid, eid: Eid, after: seq<Step>, t: State)
    requires Leads(INITIAL, before, s) && Enabled(s, Register(w, cid, eid))
    requires Leads(Next(s, Register(w, cid, eid)), after, t)
    requires w in t.waiters && t.waiters[w].phase.Done?
    ensures var pid := t.waiters[w].pid;
      Named(s, cid, eid, pid) && Reap(pid, t.waiters[w].phase.status) in before + after
  {
    RegisterNames(s, w, cid, eid);
    assert Inv(INITIAL) && INITIAL.reaped == map[] && w in Next(s, Register(w, cid, eid)).waiters;
    hide Inv, Enabled, Next, Named, Leads;
    var s1 := Next(s, Register(w, cid, eid));
    RunKeeps(INITIAL, before, s);
    StepKeeps(s, Register(w, cid, eid));
    RunKeeps(s1, after, t);
    DoneIsRecorded(t, w);
    RunKeepsNames(s1, after, t, w);
    var pid := t.waiters[w].pid;
    RunIsHistory(INITIAL, before, s, pid, cid);
    StepIsHistory(s, Register(w, cid, eid));
    RunIsHistory(s1, after, t, pid, cid);
  }

  /** Every call that returns Ok returns the code the reaper recorded, and the entry was removed exactly once. */
  lemma OkMeansRecorded(t: State, w: Task)
    requires Reachable(t) && w in t.waiters && t.waiters[w].phase.Done?
    ensures var x := t.waiters[w];
      x.pid in t.reaped && x.phase.status == t.reaped[x.pid] && multiset(t.removals)[x.pid] == 1
  {
    ReachableInv(t);
    assert WaiterOk(t, w);
    CountOnce(t.removals, t.waiters[w].pid);
  }

  lemma {:induction false} CountOnce<T>(xs: seq<T>, x: T)
    requires NoDuplicates(xs)
    ensures multiset(xs)[x] == if x in xs then 1 else 0
  {
    if xs != [] {
      var front, last := xs[..|xs| - 1], xs[|xs| - 1];
      assert xs == front + [last];
      CountOnce(front, x);
      assert x in xs <==> x in front || x == last;
    }
  }

  /** A caller that gets the lock after the signal never waits on an empty channel while holding it. */
  lemma NobodyBlocks(t: State, w: Task)
    requires Reachable(t) && Enabled(t, Finish(w))
    requires var x := t.waiters[w]; x.cid in t.containers && FindPid(t.procs, x.cid, x.pid).None?
    ensures t.waiters[w].inbox != [] || !SenderAlive(t, w)
  {
    ReachableInv(t);
    LiveIsFound(t, w);
    forall k <- t.procs ensures w !in t.procs[k].watchers {
      assert ProcessOk(t, k) && t.procs[k].pid != t.waiters[w].pid;
    }
  }

  /** Channels hold at most one code, so no send ever finds one full. */
  lemma ChannelsNeverFill(t: State, w: Task)
    requires Reachable(t) && w in t.waiters
    ensures |t.waiters[w].inbox| <= 1 < CHANNEL_CAPACITY
    ensures forall k <- t.procs | w in t.procs[k].watchers && t.waiters[w].phase.Waiting? :: t.waiters[w].inbox == []
  {
    ReachableInv(t);
    assert WaiterOk(t, w);
    forall k <- t.procs | w in t.procs[k].watchers && t.waiters[w].phase.Waiting?
      ensures t.waiters[w].inbox == []
    {
      assert ProcessOk(t, k);
      assert Live(t, t.waiters[w].pid);
    }
  }

  /** A started process is live, or a waiter removed it, or its container was removed. */
  ghost predicate Accounted(s: State, pid: Pid) {
    pid in s.started ==> Live(s, pid) || pid in s.removals || s.started[pid] in s.dismissed
  }

  /** A live entry survives a step, or a waiter removes it, or its container goes. */
  lemma EntryAccounts(s: State, step: Step, k: Key)
    requires Enabled(s, step) && k in s.procs
    ensures var t := Next(s, step);
      || (k in t.procs && t.procs[k].pid == s.procs[k].pid)
      || s.procs[k].pid in t.removals
      || (step.RemoveContainer? && step.cid == k.0)
  {
    match step
    case Register(w, cid, eid) => hide FindContainerProcess;
    case Reap(pid, code) => hide FindAnywhere;
    case Finish(w) => hide FindPid, Broadcast;
    case _ =>
  }

  lemma StepAccounts(s: State, step: Step, pid: Pid)
    requires Inv(s) && Enabled(s, step) && Accounted(s, pid)
    ensures Accounted(Next(s, step), pid)
  {
    if pid in s.started && Live(s, pid) {
      var k :| k in s.procs && s.procs[k].pid == pid;
      assert ProcessOk(s, k);
      hide Inv, ProcessOk, FindContainerProcess, FindAnywhere, FindPid, Broadcast;
      EntryAccounts(s, step, k);
    } else if step.StartProcess? && pid == step.pid {
      assert Next(s, step).procs[(step.cid, step.eid)].pid == pid;
    }
  }

  lemma {:induction false} RunAccounts(s: State, steps: seq<Step>, t: State, pid: Pid)
    requires Inv(s) && Leads(s, steps, t) && Accounted(s, pid)
    ensures Accounted(t, pid)
    decreases |steps|
  {
    if steps != [] {
      StepKeeps(s, steps[0]);
      StepAccounts(s, steps[0], pid);
      RunAccounts(Next(s, steps[0]), steps[1..], t, pid);
    }
  }

  /**
   While the caller's own container is kept and the process entry is gone: every registered
   unfinished caller has exactly one code in its channel, the recorded one, and finishing
   returns it at once.
   */
  lemma GoneMeansOneCode(t: State, w: Task)
    requires Reachable(t) && w in t.waiters && t.waiters[w].cid !in t.dismissed
    requires t.waiters[w].phase.Waiting? && !Live(t, t.waiters[w].pid)
    ensures var x := t.waiters[w];
      && x.pid in t.reaped && x.inbox == [t.reaped[x.pid]]
      && Enabled(t, Finish(w)) && Next(t, Finish(w)).waiters[w].phase == Done(t.reaped[x.pid])
  {
    ReachableInv(t);
    assert WaiterOk(t, w);
    LiveIsFound(t, w);
  }

  /** In a container that was kept, a process is live and was never removed, or is gone and was removed exactly once. */
  lemma GoneExactlyOnce(t: State, pid: Pid)
    requires Reachable(t) && pid in t.started && t.started[pid] !in t.dismissed
    ensures !Live(t, pid) <==> multiset(t.removals)[pid] == 1
    ensures Live(t, pid) <==> multiset(t.removals)[pid] == 0
  {
    var steps :| Leads(INITIAL, steps, t);
    RunKeeps(INITIAL, steps, t);
    RunAccounts(INITIAL, steps, t, pid);
    CountOnce(t.removals, pid);
    if Live(t, pid) {
      var k :| k in t.procs && t.procs[k].pid == pid;
      assert ProcessOk(t, k);
    }
  }

  /**
   A call that gets the lock after the signal returns: with an error if and only if its container is
   gone, or its process is gone and no code was sent to it.
   */
  lemma FinishReturns(t: State, w: Task)
    requires Reachable(t) && Enabled(t, Finish(w))
    ensures var x := t.waiters[w]; var phase := Next(t, Finish(w)).waiters[w].phase;
      && (phase.Done? || phase.Failed?)
      && (phase.Failed? <==> x.cid !in t.containers || (!Live(t, x.pid) && x.inbox == []))
  {
    ReachableInv(t);
    LiveIsFound(t, w);
    hide Inv, Broadcast;
  }

  /** Once the exit is recorded, every registered caller can finish and, if its container was kept, gets the code. */
  lemma ReapedMeansFinish(t: State, w: Task)
    requires Reachable(t) && w in t.waiters && t.waiters[w].cid !in t.dismissed
    requires t.waiters[w].phase.Waiting? && t.waiters[w].pid in t.reaped
    ensures var x := t.waiters[w];
      Enabled(t, Finish(w)) && Next(t, Finish(w)).waiters[w].phase == Done(t.reaped[x.pid])
  {
    var x := t.waiters[w];
    ReachableInv(t);
    LiveIsFound(t, w);
    if Live(t, x.pid) {
      var k := FindPid(t.procs, x.cid, x.pid).value;
      assert ProcessOk(t, k) && WaiterOk(t, w);
      BroadcastReaches(t.waiters, t.procs[k].watchers, t.procs[k].exitCode, w);
    } else {
      GoneMeansOneCode(t, w);
    }
  }

  // ---------------------------------------------------------------- the sandbox, changed in place

  lemma FoundAnywhere(s: State, pid: Pid, k: Key)
    requires UniquePids(s) && k in s.procs && s.procs[k].pid == pid
    ensures FindAnywhere(s.procs, pid) == Some(k)
    ensures FindPid(s.procs, k.0, pid) == Some(k)
  {
  }

  class Sandbox {
    var containers: map<Cid, Pid>
    var procs: map<Key, Process>
    var waiters: map<Task, Waiter>
    ghost var started: map<Pid, Cid>
    ghost var reaped: map<Pid, int>
    ghost var removals: seq<Pid>
    ghost var dismissed: set<Cid>

    ghost function Now(): State
      reads this
    {
      State(containers, procs, waiters, started, reaped, removals, dismissed)
    }

    ghost predicate Valid()
      reads this
    {
      Inv(Now())
    }

    constructor ()
      ensures Valid() && Now() == INITIAL
    {
      containers, procs, waiters := map[], map[], map[];
      started, reaped, removals, dismissed := map[], map[], [], {};
    }

    /** Search the processes, of one container or of all, for a pid. */
    method Search(within: Option<Cid>, pid: Pid) returns (r: Option<Key>)
      ensures r.Some? ==> r.value in procs && procs[r.value].pid == pid && (within.None? || r.value.0 == within.value)
      ensures r.None? ==> forall k <- procs | within.None? || k.0 == within.value :: procs[k].pid != pid
    {
      var todo := procs.Keys;
      while todo != {}
        invariant todo <= procs.Keys
        invariant forall k <- procs.Keys - todo | within.None? || k.0 == within.value :: procs[k].pid != pid
        decreases todo
      {
        var k :| k in todo;
        if procs[k].pid == pid && (within.None? || k.0 == within.value) { return Some(k); }
        todo := todo - {k};
      }
      r := None;
    }

    /** The body of the reaper's loop for one exited child. */
    method HandleExit(pid: Pid, code: int)
      requires Valid() && pid !in reaped
      modifies this
      ensures Valid() && Now() == Next(old(Now()), Reap(pid, code))
    {
      StepKeeps(Now(), Reap(pid, code));
      var r := Search(None, pid);
      reaped := reaped[pid := code];
      if r.Some? {
        FoundAnywhere(old(Now()), pid, r.value);
        procs := procs[r.value := procs[r.value].(exitCode := code, exited := true)];
      }
      hide Inv;
    }

    /** The first critical section of `do_wait_process`. */
    method RegisterWaiter(w: Task, cid: Cid, eid: Eid)
      requires Valid() && w !in waiters
      modifies this
      ensures Valid() && Now() == Next(old(Now()), Register(w, cid, eid))
    {
      StepKeeps(Now(), Register(w, cid, eid));
      var r: Option<Key> := None;
      if cid in containers {
        if eid == "" {
          r := Search(Some(cid), containers[cid]);
          if r.Some? { FoundAnywhere(Now(), containers[cid], r.value); }
        } else if (cid, eid) in procs {
          r := Some((cid, eid));
        }
      }
      if r.Some? {
        var p := procs[r.value];
        procs := procs[r.value := p.(watchers := p.watchers + [w])];
        waiters := waiters[w := Waiter(cid, p.pid, Waiting, [])];
      } else {
        waiters := waiters[w := Waiter(cid, -1, Rejected, [])];
      }
      hide Inv;
    }

    /** The broadcast: no send finds its channel full. */
    method SendAll(to: seq<Task>, code: int)
      requires NoDuplicates(to)
      requires forall w <- to :: w in waiters && (waiters[w].phase.Waiting? ==> waiters[w].inbox == [])
      modifies this`waiters
      ensures waiters == Broadcast(old(waiters), to, code)
    {
      var i := 0;
      while i < |to|
        invariant 0 <= i <= |to|
        invariant Broadcast(waiters, to[i..], code) == Broadcast(old(waiters), to, code)
        invariant forall j | i <= j < |to| :: to[j] in waiters && waiters[to[j]] == old(waiters)[to[j]]
      {
        var w := to[i];
        assert to[i..][0] == w && to[i..][1..] == to[i + 1..];
        if waiters[w].phase.Waiting? {
          assert |waiters[w].inbox| < CHANNEL_CAPACITY;
          waiters := waiters[w := waiters[w].(inbox := waiters[w].inbox + [code])];
        }
        i := i + 1;
      }
    }

    /** The second critical section of `do_wait_process`. */
    method FinishWaiter(w: Task)
      requires Valid() && Enabled(Now(), Finish(w))
      modifies this
      ensures Valid() && Now() == Next(old(Now()), Finish(w))
    {
      StepKeeps(Now(), Finish(w));
      var x := waiters[w];
      if x.cid !in containers {
        waiters := waiters[w := x.(phase := Failed)];
        return;
      }
      var r := Search(Some(x.cid), x.pid);
      if r.None? {
        var phase := if x.inbox != [] then Done(x.inbox[0]) else Failed;
        waiters := waiters[w := x.(phase := phase)];
        return;
      }
      var k := r.value;
      var p := procs[k];
      FoundAnywhere(Now(), x.pid, k);
      EmptyChannels(Now(), k);
      SendAll(p.watchers, p.exitCode);
      procs := procs - {k};
      removals := removals + [p.pid];
      waiters := waiters[w := waiters[w].(phase := Done(p.exitCode))];
      hide Inv;
    }
  }

  lemma EmptyChannels(s: State, k: Key)
    requires Inv(s) && k in s.procs
    ensures NoDuplicates(s.procs[k].watchers)
    ensures forall w <- s.procs[k].watchers ::
      w in s.waiters && (s.waiters[w].phase.Waiting? ==> s.waiters[w].inbox == [])
  {
    assert ProcessOk(s, k);
    forall w <- s.procs[k].watchers | s.waiters[w].phase.Waiting? ensures s.waiters[w].inbox == [] {
      assert WaiterOk(s, w) && Live(s, s.waiters[w].pid);
    }
  }
}

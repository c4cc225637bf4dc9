/** Connection admission: a bounded semaphore of global slots and a share of them per source address,
    taken by the accept thread and given back by worker threads. */
module Transport {
  import opened Wrappers

  // ---------------------------------------------------------------- the counters

  function Count(perIp: map<string, nat>, ip: string): nat { if ip in perIp then perIp[ip] else 0 }

  /** The shares after one more was asked for, and whether it was granted. */
  function Admitted(maxPerIp: Option<nat>, perIp: map<string, nat>, ip: string): (bool, map<string, nat>) {
    if maxPerIp.None? then (true, perIp)
    else if Count(perIp, ip) >= maxPerIp.value then (false, perIp)
    else (true, perIp[ip := Count(perIp, ip) + 1])
  }

  /** The shares after one was given back: an address that holds none is forgotten. */
  function Released(maxPerIp: Option<nat>, perIp: map<string, nat>, ip: string): map<string, nat> {
    if maxPerIp.None? then perIp
    else if Count(perIp, ip) <= 1 then perIp - {ip}
    else perIp[ip := Count(perIp, ip) - 1]
  }

  // ---------------------------------------------------------------- the server

  /** Where a connection stands between the atomic steps of the threads that handle it. */
  datatype Phase =
    | Waiting       // has a slot, its address not yet asked
    | Refused       // its address holds its share: the slot goes back and the connection is dropped
    | Admitting     // has a slot and a share, no worker yet
    | Working       // a worker thread has it
    | Leaving       // the share is given back, the slot not yet

  datatype Conn = Conn(ip: string, phase: Phase)

  /** The shared counters, and every connection that is somewhere in between. */
  datatype State = State(slots: nat, perIp: map<string, nat>, conns: map<nat, Conn>)

  predicate Holds(c: Conn) { c.phase == Admitting || c.phase == Working }

  /** The connections of an address that hold a share. */
  function Holders(conns: map<nat, Conn>, ip: string): set<nat> {
    set k | k in conns && conns[k].ip == ip && Holds(conns[k])
  }

  /** What a thread does next with a connection; each is one atomic step on the shared counters. */
  datatype Step =
    | Acquire(id: nat, ip: string)    // the accept loop takes a slot, if there is one
    | Admit(id: nat)                  // and asks for the address's share
    | GiveUp(id: nat)                 // a refused connection's slot goes back
    | Spawn(id: nat)                  // a worker thread starts
    | ReleaseIp(id: nat)              // the worker has finished, or never started: the share goes back
    | ReleaseSlot(id: nat)            // and then the slot

  function Initial(maxConnections: nat): State { State(maxConnections, map[], map[]) }

  /** The thread that would take the step is there to take it. */
  predicate Enabled(s: State, step: Step) {
    match step
    case Acquire(id, _) => id !in s.conns
    case Admit(id) => id in s.conns && s.conns[id].phase == Waiting
    case GiveUp(id) => id in s.conns && s.conns[id].phase == Refused
    case Spawn(id) => id in s.conns && s.conns[id].phase == Admitting
    case ReleaseIp(id) => id in s.conns && Holds(s.conns[id])
    case ReleaseSlot(id) => id in s.conns && s.conns[id].phase == Leaving
  }

  function Apply(maxPerIp: Option<nat>, s: State, step: Step): State
    requires Enabled(s, step)
  {
    match step
    case Acquire(id, ip) =>
      if s.slots == 0 then s
      else s.(slots := s.slots - 1, conns := s.conns[id := Conn(ip, Waiting)])
    case Admit(id) =>
      var c := s.conns[id];
      var (ok, perIp) := Admitted(maxPerIp, s.perIp, c.ip);
      s.(perIp := perIp, conns := s.conns[id := c.(phase := if ok then Admitting else Refused)])
    case Spawn(id) => s.(conns := s.conns[id := s.conns[id].(phase := Working)])
    case ReleaseIp(id) =>
      var c := s.conns[id];
      s.(perIp := Released(maxPerIp, s.perIp, c.ip), conns := s.conns[id := c.(phase := Leaving)])
    case GiveUp(id) => s.(slots := s.slots + 1, conns := s.conns - {id})
    case ReleaseSlot(id) => s.(slots := s.slots + 1, conns := s.conns - {id})
  }

  /** Free and held slots add up; every share count is the number of that address's holders, never zero and
      never over the limit; without a limit nothing is counted. */
  ghost predicate Inv(maxConnections: nat, maxPerIp: Option<nat>, s: State) {
    && s.slots + |s.conns| == maxConnections
    && (maxPerIp.None? ==> s.perIp == map[])
    && (maxPerIp.Some? ==> forall ip :: SharesOk(maxPerIp.value, s, ip))
  }

  ghost predicate SharesOk(max: nat, s: State, ip: string) {
    && Count(s.perIp, ip) == |Holders(s.conns, ip)| <= max
    && (ip in s.perIp ==> s.perIp[ip] > 0)
  }

  lemma NoHolders(ip: string)
    ensures Holders(map[], ip) == {}
  {
  }

  lemma InitialInv(maxConnections: nat, maxPerIp: Option<nat>)
    ensures Inv(maxConnections, maxPerIp, Initial(maxConnections))
  {
    if maxPerIp.Some? {
      forall ip ensures SharesOk(maxPerIp.value, Initial(maxConnections), ip) {
        NoHolders(ip);
      }
    }
  }

  lemma MapSizes(conns: map<nat, Conn>, id: nat, c: Conn)
    ensures id in conns ==> |conns[id := c]| == |conns| && |conns - {id}| == |conns| - 1
    ensures id !in conns ==> |conns[id := c]| == |conns| + 1
  {
    assert conns[id := c].Keys == conns.Keys + {id};
    assert (conns - {id}).Keys == conns.Keys - {id};
  }

  /** How a step on one connection changes who holds a share. */
  lemma HoldersChange(conns: map<nat, Conn>, id: nat, c: Conn, ip: string)
    requires id in conns ==> conns[id].ip == c.ip
    ensures var was := id in conns && Holds(conns[id]) && c.ip == ip;
            var now := Holds(c) && c.ip == ip;
            |Holders(conns[id := c], ip)| == |Holders(conns, ip)| + (if now then 1 else 0) - (if was then 1 else 0)
    ensures id in conns && !Holds(conns[id]) ==> Holders(conns - {id}, ip) == Holders(conns, ip)
    ensures id in conns && Holds(conns[id]) && conns[id].ip == ip ==> |Holders(conns, ip)| > 0
  {
    var before, after := Holders(conns, ip), Holders(conns[id := c], ip);
    if Holds(c) && c.ip == ip {
      assert after == before + {id};
    } else {
      assert after == before - {id};
    }
    if id in conns && Holds(conns[id]) && conns[id].ip == ip {
      assert id in before;
    }
  }

  /** The connection a step is about, after it or else before it. */
  function Subject(s: State, t: State, id: nat): Conn {
    if id in t.conns then t.conns[id] else if id in s.conns then s.conns[id] else Conn("", Waiting)
  }

  /** Every step keeps every address's count right. */
  lemma SharesKeep(max: nat, s: State, step: Step, ip: string)
    requires Enabled(s, step) && SharesOk(max, s, ip) && (step.id in s.conns ==> SharesOk(max, s, s.conns[step.id].ip))
    ensures SharesOk(max, Apply(Some(max), s, step), ip)
  {
    hide Holders;
    HoldersChange(s.conns, step.id, Subject(s, Apply(Some(max), s, step), step.id), ip);
  }

  lemma SlotsKeep(maxPerIp: Option<nat>, s: State, step: Step)
    requires Enabled(s, step)
    ensures var t := Apply(maxPerIp, s, step);
            && t.slots + |t.conns| == s.slots + |s.conns|
            && (step.GiveUp? || step.ReleaseSlot? ==> |s.conns| > 0)
            && (maxPerIp.None? ==> t.perIp == s.perIp)
  {
    MapSizes(s.conns, step.id, Subject(s, Apply(maxPerIp, s, step), step.id));
  }

  /** Admission is safe: every step any thread can take keeps the invariant, and a slot is only ever given
      back when one is out, so the semaphore is never released beyond its bound. */
  lemma StepKeeps(maxConnections: nat, maxPerIp: Option<nat>, s: State, step: Step)
    requires Inv(maxConnections, maxPerIp, s) && Enabled(s, step)
    ensures Inv(maxConnections, maxPerIp, Apply(maxPerIp, s, step))
    ensures step.GiveUp? || step.ReleaseSlot? ==> s.slots < maxConnections
  {
    hide SharesOk, Apply, Enabled;
    SlotsKeep(maxPerIp, s, step);
    if maxPerIp.Some? {
      forall ip ensures SharesOk(maxPerIp.value, Apply(maxPerIp, s, step), ip) {
        SharesKeep(maxPerIp.value, s, step, ip);
      }
    }
  }

  function Run(maxPerIp: Option<nat>, s: State, steps: seq<Step>): State
    decreases |steps|
  {
    if steps == [] then s
    else if Enabled(s, steps[0]) then Run(maxPerIp, Apply(maxPerIp, s, steps[0]), steps[1..])
    else Run(maxPerIp, s, steps[1..])
  }

  /** A run takes its steps one after the other, leaving out those that are not enabled. */
  lemma {:induction false} RunMore(maxPerIp: Option<nat>, s: State, steps: seq<Step>, step: Step)
    ensures var t := Run(maxPerIp, s, steps);
            Run(maxPerIp, s, steps + [step]) == if Enabled(t, step) then Apply(maxPerIp, t, step) else t
    decreases |steps|
  {
    hide Enabled, Apply;
    var all := steps + [step];
    if steps == [] {
      assert all[1..] == [];
    } else {
      assert all[1..] == steps[1..] + [step];
      RunMore(maxPerIp, if Enabled(s, steps[0]) then Apply(maxPerIp, s, steps[0]) else s, steps[1..], step);
    }
  }

  lemma {:induction false} RunKeeps(maxConnections: nat, maxPerIp: Option<nat>, s: State, steps: seq<Step>)
    requires Inv(maxConnections, maxPerIp, s)
    ensures Inv(maxConnections, maxPerIp, Run(maxPerIp, s, steps))
    decreases |steps|
  {
    if steps != [] {
      if Enabled(s, steps[0]) {
        StepKeeps(maxConnections, maxPerIp, s, steps[0]);
        RunKeeps(maxConnections, maxPerIp, Apply(maxPerIp, s, steps[0]), steps[1..]);
      } else {
        RunKeeps(maxConnections, maxPerIp, s, steps[1..]);
      }
    }
  }

  /** Whatever the accept loop and the workers did in whatever order: there are never more connections than
      slots, never more of one address than its share, and when none is left everything is as it began. */
  lemma AdmissionSafe(maxConnections: nat, maxPerIp: Option<nat>, steps: seq<Step>)
    ensures var s := Run(maxPerIp, Initial(maxConnections), steps);
            && s.slots + |s.conns| == maxConnections
            && (maxPerIp.Some? ==> forall ip :: |Holders(s.conns, ip)| == Count(s.perIp, ip) <= maxPerIp.value)
            && (s.conns == map[] ==> s == Initial(maxConnections))
  {
    InitialInv(maxConnections, maxPerIp);
    RunKeeps(maxConnections, maxPerIp, Initial(maxConnections), steps);
    var s := Run(maxPerIp, Initial(maxConnections), steps);
    if maxPerIp.Some? {
      forall ip ensures |Holders(s.conns, ip)| == Count(s.perIp, ip) <= maxPerIp.value {
        assert SharesOk(maxPerIp.value, s, ip);
      }
    }
    if s.conns == map[] && maxPerIp.Some? {
      forall ip ensures ip !in s.perIp {
        assert SharesOk(maxPerIp.value, s, ip);
        NoHolders(ip);
      }
      assert s.perIp == map[];
    }
  }

  /** A slot that is free is granted: nothing is refused for want of slots while fewer connections than the
      limit are held. */
  lemma NoFalseDrop(maxConnections: nat, maxPerIp: Option<nat>, steps: seq<Step>, id: nat, ip: string)
    requires var s := Run(maxPerIp, Initial(maxConnections), steps); |s.conns| < maxConnections && id !in s.conns
    ensures var s := Run(maxPerIp, Initial(maxConnections), steps);
            id in Apply(maxPerIp, s, Acquire(id, ip)).conns
  {
    AdmissionSafe(maxConnections, maxPerIp, steps);
  }

  /** A share that is free is granted: no connection of an address is refused while fewer of that address than the
      limit hold a share, and none is admitted when as many do. */
  lemma NoFalseRefusal(maxConnections: nat, maxPerIp: Option<nat>, steps: seq<Step>, id: nat)
    requires Enabled(Run(maxPerIp, Initial(maxConnections), steps), Step.Admit(id))
    ensures var s := Run(maxPerIp, Initial(maxConnections), steps);
            Apply(maxPerIp, s, Step.Admit(id)).conns[id].phase ==
            if maxPerIp.None? || |Holders(s.conns, s.conns[id].ip)| < maxPerIp.value then Admitting else Refused
  {
    AdmissionSafe(maxConnections, maxPerIp, steps);
  }

  /** `TLSThreadingHTTPServer`. */
  class Server {
    const maxConnections: nat
    const maxPerIp: Option<nat>
    var slots: nat
    var perIp: map<string, nat>
    ghost var conns: map<nat, Conn>    // the connections in between

    ghost function Shared(): State
      reads this
    {
      State(slots, perIp, conns)
    }

    ghost predicate Valid()
      reads this
    {
      Inv(maxConnections, maxPerIp, Shared())
    }

    constructor (max: nat, perIpLimit: Option<nat>)
      requires max >= 1 && (perIpLimit.Some? ==> perIpLimit.value >= 1)
      ensures maxConnections == max && maxPerIp == perIpLimit && Shared() == Initial(max) && Valid()
    {
      maxConnections, maxPerIp, slots, perIp, conns := max, perIpLimit, max, map[], map[];
      new;
      InitialInv(max, perIpLimit);
    }

    /** `_slots.acquire(blocking=False)`. */
    method Acquire(ghost id: nat, ghost ip: string) returns (ok: bool)
      requires Valid() && Enabled(Shared(), Step.Acquire(id, ip))
      modifies `slots, `conns
      ensures Valid() && Shared() == Apply(maxPerIp, old(Shared()), Step.Acquire(id, ip))
      ensures ok <==> old(slots) > 0
    {
      StepKeeps(maxConnections, maxPerIp, Shared(), Step.Acquire(id, ip));
      ok := slots > 0;
      if ok {
        slots := slots - 1;
        conns := conns[id := Conn(ip, Waiting)];
      }
    }

    /** `_slots.release()`: a bounded semaphore raises when it is released beyond its bound. */
    method Release(ghost id: nat)
      requires Valid() && id in conns && (conns[id].phase == Refused || conns[id].phase == Leaving)
      modifies `slots, `conns
      ensures Valid() && slots == old(slots) + 1 <= maxConnections
      ensures perIp == old(perIp) && conns == old(conns) - {id}
    {
      ghost var step := if conns[id].phase == Refused then Step.GiveUp(id) else Step.ReleaseSlot(id);
      StepKeeps(maxConnections, maxPerIp, Shared(), step);
      assert slots < maxConnections;
      slots := slots + 1;
      conns := conns - {id};
    }

    /** `_admit_ip`. */
    method AdmitIp(ghost id: nat, ip: string) returns (ok: bool)
      requires Valid() && Enabled(Shared(), Step.Admit(id)) && conns[id].ip == ip
      modifies `perIp, `conns
      ensures Valid() && Shared() == Apply(maxPerIp, old(Shared()), Step.Admit(id))
      ensures ok <==> maxPerIp.None? || Count(old(perIp), ip) < maxPerIp.value
    {
      StepKeeps(maxConnections, maxPerIp, Shared(), Step.Admit(id));
      if maxPerIp.None? {
        conns := conns[id := Conn(ip, Admitting)];
        return true;
      }
      var n := if ip in perIp then perIp[ip] else 0;
      if n >= maxPerIp.value {
        conns := conns[id := Conn(ip, Refused)];
        return false;
      }
      perIp := perIp[ip := n + 1];
      conns := conns[id := Conn(ip, Admitting)];
      return true;
    }

    /** `_release_ip`. */
    method ReleaseIp(ghost id: nat, ip: string)
      requires Valid() && Enabled(Shared(), Step.ReleaseIp(id)) && conns[id].ip == ip
      modifies `perIp, `conns
      ensures Valid() && Shared() == Apply(maxPerIp, old(Shared()), Step.ReleaseIp(id))
    {
      StepKeeps(maxConnections, maxPerIp, Shared(), Step.ReleaseIp(id));
      if maxPerIp.Some? {
        var held: int := if ip in perIp then perIp[ip] else 0;
        var n := held - 1;
        if n <= 0 {
          perIp := perIp - {ip};
        } else {
          perIp := perIp[ip := n];
        }
      }
      conns := conns[id := Conn(ip, Leaving)];
    }

    /** `process_request`, undisturbed: the connection is handed to a worker, or dropped, and then nothing of
        it is left; `spawns` says whether a worker thread could be started. */
    method ProcessRequest(ghost id: nat, ip: string, spawns: bool) returns (working: bool)
      requires Valid() && id !in conns
      modifies this
      ensures Valid()
      ensures working <==> old(slots) > 0 && (maxPerIp.None? || Count(old(perIp), ip) < maxPerIp.value) && spawns
      ensures working ==> conns == old(conns)[id := Conn(ip, Working)]
      ensures !working ==> Shared() == old(Shared())
    {
      hide Inv, Released;
      ghost var before := perIp;
      var slot := Acquire(id, ip);
      if !slot { return false; }
      var share := AdmitIp(id, ip);
      if !share {
        Release(id);
        assert conns == old(conns);
        return false;
      }
      if !spawns {
        ReleaseIp(id, ip);
        Release(id);
        assert conns == old(conns);
        GivenBack(before, ip, maxPerIp, maxConnections, old(Shared()));
        return false;
      }
      StepKeeps(maxConnections, maxPerIp, Shared(), Step.Spawn(id));
      conns := conns[id := Conn(ip, Working)];
      return true;
    }

    /** The end of `process_request_thread`, however the handler ended. */
    method FinishRequest(ghost id: nat, ip: string)
      requires Valid() && id in conns && conns[id] == Conn(ip, Working)
      modifies this
      ensures Valid() && slots == old(slots) + 1 && conns == old(conns) - {id}
      ensures perIp == Released(maxPerIp, old(perIp), ip)
    {
      ReleaseIp(id, ip);
      Release(id);
      assert conns == old(conns) - {id};
    }
  }

  /** A share taken and given back leaves no trace. */
  lemma GivenBack(perIp: map<string, nat>, ip: string, maxPerIp: Option<nat>, maxConnections: nat, s: State)
    requires s.perIp == perIp && Inv(maxConnections, maxPerIp, s)
    ensures var (ok, taken) := Admitted(maxPerIp, perIp, ip);
            ok ==> Released(maxPerIp, taken, ip) == perIp
  {
    if maxPerIp.Some? {
      assert SharesOk(maxPerIp.value, s, ip);
    }
  }
}

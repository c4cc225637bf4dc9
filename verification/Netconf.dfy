/** The act-then-verify sequence over a NETCONF session any call of which may raise, against a device with
    confirmed commits (section 8.4 of RFC 6241). */
module Netconf {
  import opened Wrappers
  import opened Actuator

  type Config = string

  datatype Verdict = Pass | Warn | Fail

  /** What reading a configuration back can come to: a value, a malformed text, or any other exception. */
  datatype Reading<T> = Read(value: T) | Malformed | Crashed

  /** Parsing, grading, how values are written, and digests, taken as given. */
  datatype Env = Env(
    parse: Config -> Reading<Model>,
    grade: Config -> Reading<Verdict>,
    world: World,
    digest: string -> string)

  datatype Plan = Plan(action: Action, verdict: Verdict, editConfig: string, digest: string, desired: Option<Model>)

  datatype ActResult = ActResult(ok: bool, rolledBack: bool)

  /** The configuration parses, grades other than FAIL, and is the desired one. */
  ghost predicate Verified(env: Env, desired: Model, c: Config) {
    && env.parse(c).Read?
    && env.grade(c).Read? && env.grade(c).value != Fail
    && FieldsAgree(env.world, env.parse(c).value, desired)
  }

  /** What passes as the desired configuration has the same cells and network functions, each the same in
      service. */
  lemma VerifiedIs(env: Env, desired: Model, c: Config)
    requires SoundWorld(env.world)
    ensures Verified(env, desired, c) <==>
              && env.parse(c).Read? && env.grade(c).Read? && env.grade(c).value != Fail
              && Agree(env.world, env.parse(c).value, desired)
  {
    hide Agree, FieldsAgree;
    MatchesIff(env.world, if env.parse(c).Read? then env.parse(c).value else desired, desired);
  }

  // ---------------------------------------------------------------- the device

  /** Running and candidate configurations, and what an unconfirmed commit will fall back to. */
  datatype Device = Device(running: Config, candidate: Config, fallback: Option<Config>)

  datatype Op = Lock | Edit(payload: string) | CommitConfirmed | Commit | Discard | GetConfig | Unlock

  /** The confirm timer runs out. */
  function Expired(d: Device): Device {
    if d.fallback.None? then d else d.(running := d.fallback.value, fallback := None)
  }

  /** What a call does to the device when it takes effect; `edit` says what a payload makes of a candidate. */
  function Effect(edit: (Config, string) -> Config, d: Device, op: Op): Device {
    match op
    case Edit(p) => d.(candidate := edit(d.candidate, p))
    case CommitConfirmed => d.(running := d.candidate,
        fallback := Some(if d.fallback.None? then d.running else d.fallback.value))
    case Commit => d.(running := d.candidate, fallback := None)
    case Discard => d.(candidate := d.running)
    case _ => d
  }

  /** What is left once every timer has run out. */
  function Lasting(d: Device): Config { Expired(d).running }

  /** What happens at one call: the timer may have run out before it, it may raise, and a call that raises may
      have taken effect all the same. */
  datatype Fate = Fate(expires: bool, raises: bool, effect: bool)

  datatype Call = Call(op: Op, raised: bool)

  /** The device after some calls, the first of them at fate 0. */
  function Replay(edit: (Config, string) -> Config, fates: nat -> Fate, d: Device, calls: seq<Call>): Device {
    if calls == [] then d
    else
      var n := |calls| - 1;
      var before, f := Replay(edit, fates, d, calls[..n]), fates(n);
      var e := if f.expires then Expired(before) else before;
      if !f.raises || f.effect then Effect(edit, e, calls[n].op) else e
  }

  lemma ReplayMore(edit: (Config, string) -> Config, fates: nat -> Fate, d: Device, calls: seq<Call>, c: Call)
    ensures var before, f := Replay(edit, fates, d, calls), fates(|calls|);
            var e := if f.expires then Expired(before) else before;
            Replay(edit, fates, d, calls + [c]) == if !f.raises || f.effect then Effect(edit, e, c.op) else e
  {
    assert (calls + [c])[..|calls|] == calls;
  }

  class Session {
    const edit: (Config, string) -> Config
    const fates: nat -> Fate
    const start: Device
    var device: Device
    var calls: seq<Call>

    ghost predicate Valid()
      reads this
    {
      && device == Replay(edit, fates, start, calls)
      && forall k | 0 <= k < |calls| :: calls[k].raised == fates(k).raises
    }

    /** A session on a device with nothing pending. */
    constructor (theEdit: (Config, string) -> Config, theFates: nat -> Fate, running: Config)
      ensures edit == theEdit && fates == theFates && start == device == Device(running, running, None)
                && calls == [] && Valid()
    {
      edit, fates, start := theEdit, theFates, Device(running, running, None);
      device, calls := Device(running, running, None), [];
    }

    method Perform(op: Op) returns (ok: bool)
      requires Valid()
      modifies `device, `calls
      ensures Valid() && calls == old(calls) + [Call(op, !ok)]
    {
      var f := fates(|calls|);
      ReplayMore(edit, fates, start, calls, Call(op, f.raises));
      var d := if f.expires then Expired(device) else device;
      device := if !f.raises || f.effect then Effect(edit, d, op) else d;
      calls := calls + [Call(op, f.raises)];
      ok := !f.raises;
    }
  }

  // ---------------------------------------------------------------- the plan

  /** What a plan is of two configurations and an edit: the grade of the desired one, the class of the change, and the
      digest of the edit. A configuration that does not parse, or a comparison that raises, makes the change
      irreversible. */
  ghost predicate PlanOf(env: Env, current: Config, desired: Config, edit: string, plan: Plan) {
    && env.grade(desired) == Read(plan.verdict)
    && plan.editConfig == edit && plan.digest == (if edit == "" then "" else env.digest(edit))
    && plan.desired == (if env.parse(current).Read? && env.parse(desired).Read?
                        then Some(env.parse(desired).value) else None)
    && (plan.action == Consequential <==>
          && env.parse(current).Read? && env.parse(desired).Read?
          && AllKept(env.world, env.parse(current).value, env.parse(desired).value))
  }

  /** `plan`: None when grading the desired configuration raised. */
  method MakePlan(env: Env, current: Config, desired: Config, edit: string) returns (plan: Option<Plan>)
    requires SoundWorld(env.world)
    ensures plan.Some? <==> env.grade(desired).Read?
    ensures plan.Some? ==> PlanOf(env, current, desired, edit, plan.value)
  {
    hide AllKept, SoundWorld;
    var verdict := env.grade(desired);
    if !verdict.Read? { return None; }
    var action, model := Irreversible, None;
    var cur := env.parse(current);
    if cur.Read? {
      var des := env.parse(desired);
      if des.Read? {
        model := Some(des.value);
        action := PlanAction(env.world, cur.value, des.value);
      }
    }
    return Some(Plan(action, verdict.value, edit, if edit == "" then "" else env.digest(edit), model));
  }

  // ---------------------------------------------------------------- the sequence

  function Done(op: Op): Call { Call(op, false) }

  /** The calls up to and with the verification. */
  function Applied(payload: string): seq<Call> {
    [Done(Lock), Done(Edit(payload)), Done(CommitConfirmed), Done(GetConfig)]
  }

  /** `_verify_running`: None when something raised that is not handled here. */
  method VerifyRunning(env: Env, session: Session, desired: Model) returns (ok: Option<bool>)
    requires session.Valid()
    modifies session
    ensures session.Valid() && |session.calls| == |old(session.calls)| + 1
    ensures session.calls == old(session.calls) + [Call(GetConfig, session.calls[|session.calls| - 1].raised)]
    ensures ok == Some(true) <==>
              !session.calls[|session.calls| - 1].raised && Verified(env, desired, session.device.running)
  {
    var replied := session.Perform(GetConfig);
    if !replied { return None; }
    var running := session.device.running;
    var model := env.parse(running);
    if model.Crashed? { return None; }
    if model.Malformed? { return Some(false); }
    var verdict := env.grade(running);
    if verdict.Crashed? { return None; }
    if verdict.Malformed? { return Some(false); }
    if verdict.value == Fail { return Some(false); }
    var mismatch := MatchesDesired(env.world, model.value, desired);
    if mismatch.None? { return None; }
    return Some(mismatch.value == []);
  }

  /** The checks before anything is sent. */
  predicate Allowed(env: Env, plan: Plan, approved: bool) {
    && plan.editConfig != "" && env.digest(plan.editConfig) == plan.digest
    && plan.desired.Some? && (plan.action == Irreversible ==> approved) && plan.verdict != Fail
  }

  /** The ways the sequence can go, call by call. */
  ghost predicate Behaved(env: Env, plan: Plan, approved: bool, edit: (Config, string) -> Config, fates: nat -> Fate,
                          d: Device, calls: seq<Call>, r: ActResult)
  {
    var applied, n := Applied(plan.editConfig), |calls|;
    if !Allowed(env, plan, approved) then calls == [] && r == ActResult(false, false)
    else if calls == [Call(Lock, true)] then r == ActResult(false, false)
    else if n >= 5 && calls[4].op == Commit then
      && calls[..4] == applied && Verified(env, plan.desired.value, Replay(edit, fates, d, calls[..4]).running)
      && if calls[4].raised then n == 5 && r == ActResult(false, true)
         else n == 6 && calls[5].op == Unlock && r == ActResult(true, false)
    else
      && 4 <= n <= 6 && r == ActResult(false, true)
      && calls[..n - 3] == applied[..n - 3] && calls[n - 3].op == applied[n - 3].op
      && calls[n - 2].op == Discard && calls[n - 1].op == Unlock
      && (calls[n - 3].raised ||
          (n == 6 && !Verified(env, plan.desired.value, Replay(edit, fates, d, calls[..4]).running)))
  }

  /** The apply part of `act`: edit, confirmed commit and verification, up to the first that fails. */
  method Attempt(env: Env, session: Session, payload: string, desired: Model) returns (verified: Option<bool>)
    requires session.Valid() && session.calls == [Done(Lock)]
    modifies session
    ensures session.Valid() && 2 <= |session.calls| <= 4
    ensures var n := |session.calls| - 1;
            && session.calls[..n] == Applied(payload)[..n] && session.calls[n].op == Applied(payload)[n].op
            && (verified != Some(true) ==>
                  session.calls[n].raised || (n == 3 && !Verified(env, desired, session.device.running)))
            && (verified == Some(true) ==>
                  session.calls == Applied(payload) && Verified(env, desired, session.device.running))
  {
    hide Replay, Verified;
    verified := None;
    var sent := session.Perform(Edit(payload));
    if sent {
      var committed := session.Perform(CommitConfirmed);
      if committed {
        verified := VerifyRunning(env, session, desired);
      }
    }
  }

  /** `act`, whatever the session does at any call. */
  method Act(env: Env, plan: Plan, session: Session, approved: bool) returns (r: ActResult)
    requires session.Valid() && session.calls == []
    modifies session
    ensures session.Valid()
    ensures Behaved(env, plan, approved, session.edit, session.fates, session.start, session.calls, r)
  {
    hide Replay, Verified, Applied, Behaved;
    RefusedShapes(env, plan, approved, session.edit, session.fates, session.start);
    if plan.editConfig == "" { return ActResult(false, false); }
    if env.digest(plan.editConfig) != plan.digest { return ActResult(false, false); }
    if plan.desired.None? { return ActResult(false, false); }
    if plan.action == Irreversible && !approved { return ActResult(false, false); }
    if plan.verdict == Fail { return ActResult(false, false); }
    var locked := session.Perform(Lock);
    assert session.calls == [Call(Lock, !locked)];
    if !locked { return ActResult(false, false); }
    var verified := Attempt(env, session, plan.editConfig, plan.desired.value);
    ghost var before := session.calls;
    if verified != Some(true) {
      var d := session.Perform(Discard);
      var u := session.Perform(Unlock);
      DiscardedShape(env, plan, approved, session.edit, session.fates, session.start, before,
                     Call(Discard, !d), Call(Unlock, !u));
      return ActResult(false, true);
    }
    CommittedShape(env, plan, approved, session.edit, session.fates, session.start, before);
    var confirmed := session.Perform(Commit);
    if !confirmed { return ActResult(false, true); }
    var u := session.Perform(Unlock);
    return ActResult(true, false);
  }

  lemma RefusedShapes(env: Env, plan: Plan, approved: bool, edit: (Config, string) -> Config, fates: nat -> Fate,
                      d: Device)
    ensures !Allowed(env, plan, approved) ==> Behaved(env, plan, approved, edit, fates, d, [], ActResult(false, false))
    ensures Allowed(env, plan, approved) ==>
              Behaved(env, plan, approved, edit, fates, d, [Call(Lock, true)], ActResult(false, false))
  {
  }

  lemma DiscardedShape(env: Env, plan: Plan, approved: bool, edit: (Config, string) -> Config, fates: nat -> Fate,
                       d: Device, before: seq<Call>, x: Call, y: Call)
    requires Allowed(env, plan, approved) && 2 <= |before| <= 4 && x.op == Discard && y.op == Unlock
    requires var n := |before| - 1;
             && before[..n] == Applied(plan.editConfig)[..n] && before[n].op == Applied(plan.editConfig)[n].op
             && (before[n].raised ||
                 (n == 3 && !Verified(env, plan.desired.value, Replay(edit, fates, d, before).running)))
    ensures Behaved(env, plan, approved, edit, fates, d, before + [x] + [y], ActResult(false, true))
  {
    hide Replay, Verified;
    var calls, n := before + [x] + [y], |before| - 1;
    assert calls[..n] == before[..n];
    assert n == 3 ==> calls[..4] == before;
  }

  lemma CommittedShape(env: Env, plan: Plan, approved: bool, edit: (Config, string) -> Config, fates: nat -> Fate,
                       d: Device, before: seq<Call>)
    requires Allowed(env, plan, approved) && before == Applied(plan.editConfig)
    requires Verified(env, plan.desired.value, Replay(edit, fates, d, before).running)
    ensures Behaved(env, plan, approved, edit, fates, d, before + [Call(Commit, true)], ActResult(false, true))
    ensures forall x: Call | x.op == Unlock ::
              Behaved(env, plan, approved, edit, fates, d, before + [Call(Commit, false)] + [x], ActResult(true, false))
  {
    hide Replay, Verified;
    assert (before + [Call(Commit, true)])[..4] == before;
    forall x: Call | x.op == Unlock
      ensures Behaved(env, plan, approved, edit, fates, d, before + [Call(Commit, false)] + [x], ActResult(true, false))
    {
      assert (before + [Call(Commit, false)] + [x])[..4] == before;
    }
  }

  // ---------------------------------------------------------------- what that guarantees

  /** The guards, one by one. Whatever the session does, if any edit was sent, then it is the bound payload and not
      empty, there is a desired model, it did not grade FAIL, and an irreversible change was approved. */
  lemma EveryGuard(env: Env, plan: Plan, approved: bool, edit: (Config, string) -> Config, fates: nat -> Fate,
                   d: Device, calls: seq<Call>, r: ActResult)
    requires Behaved(env, plan, approved, edit, fates, d, calls, r)
    requires exists c :: c in calls && c.op != Lock
    ensures plan.editConfig != "" && env.digest(plan.editConfig) == plan.digest
    ensures plan.desired.Some? && plan.verdict != Fail
    ensures plan.action == Irreversible ==> approved
    ensures forall c | c in calls && c.op.Edit? :: c.op.payload == plan.editConfig
  {
    hide Verified, Replay;
    Positions(plan.editConfig, calls);
  }

  /** The applied configuration was confirmed exactly when every guard let it pass, no call up to the confirming commit
      raised, and what was read back verified. */
  lemma SucceedsWhen(env: Env, plan: Plan, approved: bool, edit: (Config, string) -> Config, fates: nat -> Fate,
                     before: Config, calls: seq<Call>, r: ActResult)
    requires Behaved(env, plan, approved, edit, fates, Device(before, before, None), calls, r)
    requires forall k | 0 <= k < |calls| :: calls[k].raised == fates(k).raises
    ensures r.ok <==>
              && plan.editConfig != "" && env.digest(plan.editConfig) == plan.digest
              && plan.desired.Some? && plan.verdict != Fail && (plan.action == Irreversible ==> approved)
              && (forall k | 0 <= k < 5 :: !fates(k).raises)
              && Verified(env, plan.desired.value, if fates(3).expires then before else edit(before, plan.editConfig))
  {
    hide Verified, Replay, Applied, Behaved;
    AllowedMeans(env, plan, approved);
    if |calls| >= 5 && calls[4].op == Commit {
      CommittedCalls(env, plan, approved, edit, fates, Device(before, before, None), calls, r);
      GoneThrough(plan.editConfig, fates, calls);
      CommitLasts(edit, fates, before, plan.editConfig, calls);
    } else {
      UncommittedOld(env, plan, approved, edit, fates, before, calls, r);
      if Allowed(env, plan, approved) && (forall k | 0 <= k < 4 :: !fates(k).raises) {
        NotVerified(env, plan, approved, edit, fates, before, calls, r);
      }
    }
  }

  lemma AllowedMeans(env: Env, plan: Plan, approved: bool)
    ensures Allowed(env, plan, approved) <==>
              && plan.editConfig != "" && env.digest(plan.editConfig) == plan.digest
              && plan.desired.Some? && plan.verdict != Fail && (plan.action == Irreversible ==> approved)
  {
  }

  /** What is undone: a session that sent the edit and not the confirming commit has discarded the candidate after it;
      and one that took the lock gives it back last, unless the confirming commit raised. */
  lemma CleansUp(env: Env, plan: Plan, approved: bool, edit: (Config, string) -> Config, fates: nat -> Fate,
                 d: Device, calls: seq<Call>, r: ActResult)
    requires Behaved(env, plan, approved, edit, fates, d, calls, r) && calls != [] && calls[0] == Done(Lock)
    ensures |calls| >= 4
    ensures calls[|calls| - 1].op == Unlock <==> !(calls[|calls| - 1].op == Commit && calls[|calls| - 1].raised)
    ensures (forall c | c in calls :: c.op != Commit) ==> calls[|calls| - 2].op == Discard
  {
    hide Verified, Replay;
    if |calls| >= 5 && calls[4].op == Commit {
      assert calls[4] in calls;
    }
  }

  /** Only the bound payload is ever sent, and only when every guard let it pass. */
  lemma OnlyBoundEdits(env: Env, plan: Plan, approved: bool, edit: (Config, string) -> Config, fates: nat -> Fate,
                       d: Device, calls: seq<Call>, r: ActResult)
    requires Behaved(env, plan, approved, edit, fates, d, calls, r)
    ensures forall c | c in calls && c.op.Edit? ::
              env.digest(c.op.payload) == plan.digest && Allowed(env, plan, approved)
    ensures !r.ok && !r.rolledBack ==> forall c | c in calls :: c.op == Lock
  {
    hide Verified, Replay;
    Positions(plan.editConfig, calls);
  }

  /** Where in the sequence an operation can be. */
  lemma Positions(payload: string, calls: seq<Call>)
    ensures forall k | 0 <= k < Min(|calls|, 4) && calls[..k] == Applied(payload)[..k] ::
              forall j | 0 <= j < k :: calls[j] == Applied(payload)[j]
  {
    forall k, j | 0 <= k < Min(|calls|, 4) && calls[..k] == Applied(payload)[..k] && 0 <= j < k
      ensures calls[j] == Applied(payload)[j]
    {
      assert calls[..k][j] == Applied(payload)[..k][j];
    }
  }

  /** The permanent commit is sent at most once, and only right after a confirmed commit of the bound payload
      whose running configuration was read back and verified. */
  lemma OneVerifiedCommit(env: Env, plan: Plan, approved: bool, edit: (Config, string) -> Config, fates: nat -> Fate,
                          d: Device, calls: seq<Call>, r: ActResult)
    requires Behaved(env, plan, approved, edit, fates, d, calls, r)
    ensures forall k | 0 <= k < |calls| && calls[k].op == Commit ::
              && k == 4 && calls[..4] == Applied(plan.editConfig) && plan.desired.Some?
              && Verified(env, plan.desired.value, Replay(edit, fates, d, calls[..4]).running)
    ensures r.ok <==> |calls| >= 5 && calls[4] == Done(Commit)
  {
    hide Verified, Replay;
    Positions(plan.editConfig, calls);
    if |calls| >= 5 {
      assert forall j | 0 <= j < 4 && calls[4].op == Commit :: calls[j] == calls[..4][j];
    }
  }

  /** Without a permanent commit the configuration that lasts is the one there was. */
  lemma {:induction false} WithoutCommitOldLasts(edit: (Config, string) -> Config, fates: nat -> Fate, before: Config,
                                                 calls: seq<Call>)
    requires forall c | c in calls :: c.op != Commit
    ensures var e := Replay(edit, fates, Device(before, before, None), calls);
            && Lasting(e) == before
            && (e.fallback.None? ==> e.running == before) && (e.fallback.Some? ==> e.fallback.value == before)
  {
    if calls != [] {
      var n := |calls| - 1;
      WithoutCommitOldLasts(edit, fates, before, calls[..n]);
      assert calls[n] in calls;
    }
  }

  /** The device when the running configuration has been read back. */
  lemma AfterApplied(edit: (Config, string) -> Config, fates: nat -> Fate, before: Config, payload: string)
    requires forall k | 0 <= k < 4 :: !fates(k).raises
    ensures var after := edit(before, payload);
            Replay(edit, fates, Device(before, before, None), Applied(payload)) ==
            if fates(3).expires then Device(before, after, None) else Device(after, after, Some(before))
  {
    var d, a := Device(before, before, None), Applied(payload);
    var none: seq<Call> := [];
    ReplayMore(edit, fates, d, none, a[0]);
    ReplayMore(edit, fates, d, [a[0]], a[1]);
    ReplayMore(edit, fates, d, [a[0], a[1]], a[2]);
    ReplayMore(edit, fates, d, [a[0], a[1], a[2]], a[3]);
    assert none + [a[0]] == [a[0]] && [a[0]] + [a[1]] == [a[0], a[1]];
    assert [a[0], a[1]] + [a[2]] == [a[0], a[1], a[2]] && [a[0], a[1], a[2]] + [a[3]] == a;
  }

  /** The first four calls go through, the timer runs out before the read-back, and the commit takes effect:
      the old configuration passes as the desired one, and the edit that becomes permanent would not. */
  ghost predicate Overtaken(env: Env, plan: Plan, approved: bool, edit: (Config, string) -> Config, fates: nat -> Fate,
                            before: Config)
  {
    && Allowed(env, plan, approved)
    && (forall k | 0 <= k < 4 :: !fates(k).raises)
    && fates(3).expires
    && (!fates(4).raises || fates(4).effect)
    && Verified(env, plan.desired.value, before)
    && edit(before, plan.editConfig) != before && !Verified(env, plan.desired.value, edit(before, plan.editConfig))
  }

  /** With no other writer, what lasts once all timers have run out is the configuration there was or one that
      verifies as the desired one, in exactly the sessions that are not `Overtaken`. */
  lemma LastingIsOldOrVerified(env: Env, plan: Plan, approved: bool, edit: (Config, string) -> Config,
                               fates: nat -> Fate, before: Config, calls: seq<Call>, r: ActResult)
    requires Behaved(env, plan, approved, edit, fates, Device(before, before, None), calls, r)
    requires forall k | 0 <= k < |calls| :: calls[k].raised == fates(k).raises
    ensures var lasting := Lasting(Replay(edit, fates, Device(before, before, None), calls));
            lasting == before || (plan.desired.Some? && Verified(env, plan.desired.value, lasting)) <==>
            !Overtaken(env, plan, approved, edit, fates, before)
    ensures r.ok ==> Lasting(Replay(edit, fates, Device(before, before, None), calls)) == edit(before, plan.editConfig)
    ensures !Allowed(env, plan, approved) ==>
              Lasting(Replay(edit, fates, Device(before, before, None), calls)) == before
  {
    hide Verified, Replay;
    OneVerifiedCommit(env, plan, approved, edit, fates, Device(before, before, None), calls, r);
    if |calls| >= 5 && calls[4].op == Commit {
      CommittedOld(env, plan, approved, edit, fates, before, calls, r);
    } else {
      UncommittedOld(env, plan, approved, edit, fates, before, calls, r);
    }
  }

  lemma UncommittedOld(env: Env, plan: Plan, approved: bool, edit: (Config, string) -> Config, fates: nat -> Fate,
                       before: Config, calls: seq<Call>, r: ActResult)
    requires Behaved(env, plan, approved, edit, fates, Device(before, before, None), calls, r)
    requires forall k | 0 <= k < |calls| :: calls[k].raised == fates(k).raises
    requires !(|calls| >= 5 && calls[4].op == Commit)
    ensures Lasting(Replay(edit, fates, Device(before, before, None), calls)) == before
    ensures !r.ok && !Overtaken(env, plan, approved, edit, fates, before)
  {
    hide Verified, Replay, Behaved, Lasting;
    OneVerifiedCommit(env, plan, approved, edit, fates, Device(before, before, None), calls, r);
    assert forall c | c in calls :: c.op != Commit;
    WithoutCommitOldLasts(edit, fates, before, calls);
    if Overtaken(env, plan, approved, edit, fates, before) {
      GoesThrough(env, plan, approved, edit, fates, before, calls, r);
    }
  }

  lemma CommittedOld(env: Env, plan: Plan, approved: bool, edit: (Config, string) -> Config, fates: nat -> Fate,
                     before: Config, calls: seq<Call>, r: ActResult)
    requires Behaved(env, plan, approved, edit, fates, Device(before, before, None), calls, r)
    requires forall k | 0 <= k < |calls| :: calls[k].raised == fates(k).raises
    requires |calls| >= 5 && calls[4].op == Commit
    ensures var lasting := Lasting(Replay(edit, fates, Device(before, before, None), calls));
            && (lasting == before || (plan.desired.Some? && Verified(env, plan.desired.value, lasting)) <==>
                !Overtaken(env, plan, approved, edit, fates, before))
            && (r.ok ==> lasting == edit(before, plan.editConfig))
    ensures Allowed(env, plan, approved)
  {
    hide Verified, Replay, Lasting, Applied;
    CommittedCalls(env, plan, approved, edit, fates, Device(before, before, None), calls, r);
    GoneThrough(plan.editConfig, fates, calls);
    CommitLasts(edit, fates, before, plan.editConfig, calls);
  }

  /** The calls of a session that sent the commit. */
  lemma CommittedCalls(env: Env, plan: Plan, approved: bool, edit: (Config, string) -> Config, fates: nat -> Fate,
                       d: Device, calls: seq<Call>, r: ActResult)
    requires Behaved(env, plan, approved, edit, fates, d, calls, r) && |calls| >= 5 && calls[4].op == Commit
    ensures 5 <= |calls| <= 6 && calls[..4] == Applied(plan.editConfig) && (|calls| == 6 ==> calls[5].op == Unlock)
    ensures r.ok <==> !calls[4].raised
    ensures r.rolledBack <==> calls[4].raised
    ensures Allowed(env, plan, approved)
              && Verified(env, plan.desired.value, Replay(edit, fates, d, calls[..4]).running)
  {
    hide Verified, Replay;
  }

  lemma GoneThrough(payload: string, fates: nat -> Fate, calls: seq<Call>)
    requires |calls| >= 5 && calls[..4] == Applied(payload)
    requires forall k | 0 <= k < |calls| :: calls[k].raised == fates(k).raises
    ensures (forall k | 0 <= k < 4 :: !fates(k).raises) && calls[4].raised == fates(4).raises
  {
    forall k | 0 <= k < 4 ensures !fates(k).raises {
      assert calls[..4][k] == Applied(payload)[k];
    }
  }

  /** When the first four calls go through and what is running then verifies, the commit is sent. */
  lemma GoesThrough(env: Env, plan: Plan, approved: bool, edit: (Config, string) -> Config, fates: nat -> Fate,
                    before: Config, calls: seq<Call>, r: ActResult)
    requires Behaved(env, plan, approved, edit, fates, Device(before, before, None), calls, r)
    requires forall k | 0 <= k < |calls| :: calls[k].raised == fates(k).raises
    requires Allowed(env, plan, approved) && forall k | 0 <= k < 4 :: !fates(k).raises
    requires var after := edit(before, plan.editConfig);
             Verified(env, plan.desired.value, if fates(3).expires then before else after)
    ensures |calls| >= 5 && calls[4].op == Commit
  {
    hide Verified, Replay;
    AfterApplied(edit, fates, before, plan.editConfig);
    var n, applied := |calls|, Applied(plan.editConfig);
    if n > 0 {
      assert calls[0].raised == fates(0).raises;
    }
    if 4 <= n <= 6 {
      assert calls[n - 3].raised == fates(n - 3).raises;
    }
    if n == 6 && calls[..3] == applied[..3] && calls[3].op == applied[3].op {
      assert calls[3].raised == fates(3).raises;
      assert calls[..4] == calls[..3] + [calls[3]];
      assert calls[..4] == applied;
    }
  }

  /** A result that says rolled back is wrong in exactly these sessions: the first four calls go through, what is
      running then verifies, and the confirming commit raises although it took effect, and changes something. */
  lemma RolledBackIs(env: Env, plan: Plan, approved: bool, edit: (Config, string) -> Config, fates: nat -> Fate,
                     before: Config, calls: seq<Call>, r: ActResult)
    requires Behaved(env, plan, approved, edit, fates, Device(before, before, None), calls, r)
    requires forall k | 0 <= k < |calls| :: calls[k].raised == fates(k).raises
    ensures var lasting, after := Lasting(Replay(edit, fates, Device(before, before, None), calls)),
                                  edit(before, plan.editConfig);
            r.rolledBack && lasting != before <==>
              && Allowed(env, plan, approved) && (forall k | 0 <= k < 4 :: !fates(k).raises)
              && Verified(env, plan.desired.value, if fates(3).expires then before else after)
              && fates(4).raises && fates(4).effect && after != before
  {
    hide Verified, Replay, Lasting, Applied, Allowed;
    if |calls| >= 5 && calls[4].op == Commit {
      CommittedCalls(env, plan, approved, edit, fates, Device(before, before, None), calls, r);
      GoneThrough(plan.editConfig, fates, calls);
      CommitLasts(edit, fates, before, plan.editConfig, calls);
    } else {
      UncommittedOld(env, plan, approved, edit, fates, before, calls, r);
      if Allowed(env, plan, approved) && (forall k | 0 <= k < 4 :: !fates(k).raises) {
        NotVerified(env, plan, approved, edit, fates, before, calls, r);
      }
    }
  }

  lemma NotVerified(env: Env, plan: Plan, approved: bool, edit: (Config, string) -> Config, fates: nat -> Fate,
                    before: Config, calls: seq<Call>, r: ActResult)
    requires Behaved(env, plan, approved, edit, fates, Device(before, before, None), calls, r)
    requires forall k | 0 <= k < |calls| :: calls[k].raised == fates(k).raises
    requires !(|calls| >= 5 && calls[4].op == Commit)
    requires Allowed(env, plan, approved) && forall k | 0 <= k < 4 :: !fates(k).raises
    ensures !Verified(env, plan.desired.value, if fates(3).expires then before else edit(before, plan.editConfig))
  {
    hide Verified, Replay, Behaved;
    if Verified(env, plan.desired.value, if fates(3).expires then before else edit(before, plan.editConfig)) {
      GoesThrough(env, plan, approved, edit, fates, before, calls, r);
    }
  }

  /** Whatever the session does, if the configuration there was would not itself pass as the desired one, then
      what lasts is that configuration or one that verifies. */
  lemma OldOrVerifiedUnlessAlready(env: Env, plan: Plan, approved: bool, edit: (Config, string) -> Config,
                                   fates: nat -> Fate, before: Config, calls: seq<Call>, r: ActResult)
    requires Behaved(env, plan, approved, edit, fates, Device(before, before, None), calls, r)
    requires forall k | 0 <= k < |calls| :: calls[k].raised == fates(k).raises
    requires plan.desired.Some? ==> !Verified(env, plan.desired.value, before)
    ensures var lasting := Lasting(Replay(edit, fates, Device(before, before, None), calls));
            lasting == before || (plan.desired.Some? && Verified(env, plan.desired.value, lasting))
  {
    hide Verified, Replay;
    LastingIsOldOrVerified(env, plan, approved, edit, fates, before, calls, r);
  }

  lemma CommitLasts(edit: (Config, string) -> Config, fates: nat -> Fate, before: Config, payload: string,
                    calls: seq<Call>)
    requires 5 <= |calls| <= 6 && calls[..4] == Applied(payload) && calls[4].op == Commit
    requires |calls| == 6 ==> calls[5].op == Unlock
    requires forall k | 0 <= k < |calls| :: calls[k].raised == fates(k).raises
    ensures var lasting, d4 := Lasting(Replay(edit, fates, Device(before, before, None), calls)),
                               Replay(edit, fates, Device(before, before, None), calls[..4]);
            && lasting == (if !calls[4].raised || fates(4).effect then edit(before, payload) else before)
            && d4.running == (if fates(3).expires then before else edit(before, payload))
  {
    hide Replay;
    var d := Device(before, before, None);
    GoneThrough(payload, fates, calls);
    AfterApplied(edit, fates, before, payload);
    ReplayMore(edit, fates, d, calls[..4], calls[4]);
    assert calls[..4] + [calls[4]] == calls[..5];
    if |calls| == 6 {
      ReplayMore(edit, fates, d, calls[..5], calls[5]);
      assert calls[..5] + [calls[5]] == calls;
    } else {
      assert calls[..5] == calls;
    }
  }

  /** It can happen: the timer runs out before the read-back, the old configuration passes as the desired one,
      and the confirming commit makes the edit permanent although it would not have passed. */
  lemma TimerOvertakes(env: Env, desired: Model, payload: string)
      returns (plan: Plan, edit: (Config, string) -> Config, fates: nat -> Fate, calls: seq<Call>)
    requires payload != "" && Verified(env, desired, "old") && !Verified(env, desired, "new")
    ensures Behaved(env, plan, true, edit, fates, Device("old", "old", None), calls, ActResult(true, false))
    ensures Lasting(Replay(edit, fates, Device("old", "old", None), calls)) == "new"
    ensures Overtaken(env, plan, true, edit, fates, "old")
  {
    plan := Plan(Consequential, Pass, payload, env.digest(payload), Some(desired));
    edit := (c: Config, p: string) => "new";
    fates := (n: nat) => Fate(n == 3, false, true);
    calls := Applied(payload) + [Done(Commit), Done(Unlock)];
    assert calls[..4] == Applied(payload);
    AfterApplied(edit, fates, "old", payload);
    CommitLasts(edit, fates, "old", payload, calls);
  }

  /** From the plan to the device: whatever the session does, if anything is sent without approval, then both
      configurations parsed, the desired one did not grade FAIL, and every cell and every network function that
      is there stays, the same in service. */
  lemma UnapprovedKeepsAll(env: Env, current: Config, desired: Config, payload: string, plan: Plan,
                           edit: (Config, string) -> Config, fates: nat -> Fate, d: Device, calls: seq<Call>,
                           r: ActResult)
    requires PlanOf(env, current, desired, payload, plan) && Behaved(env, plan, false, edit, fates, d, calls, r)
    requires exists c :: c in calls && c.op != Lock
    ensures env.parse(current).Read? && env.parse(desired).Read?
    ensures env.grade(desired).Read? && env.grade(desired).value != Fail && payload != ""
    ensures AllKept(env.world, env.parse(current).value, env.parse(desired).value)
  {
    hide Verified, Replay, AllKept, Behaved;
    EveryGuard(env, plan, false, edit, fates, d, calls, r);
  }

  /** From planning to applying: the edit becomes permanent with a good answer exactly when there is one, both
      configurations parse, the desired one does not grade FAIL, the change keeps all that is in service or was
      approved, no call up to the confirming commit raised, and what was read back verified as the desired one. */
  lemma PlannedSucceeds(env: Env, current: Config, desired: Config, payload: string, plan: Plan, approved: bool,
                        edit: (Config, string) -> Config, fates: nat -> Fate, before: Config, calls: seq<Call>,
                        r: ActResult)
    requires PlanOf(env, current, desired, payload, plan)
    requires Behaved(env, plan, approved, edit, fates, Device(before, before, None), calls, r)
    requires forall k | 0 <= k < |calls| :: calls[k].raised == fates(k).raises
    ensures r.ok <==>
              && payload != "" && env.parse(current).Read? && env.parse(desired).Read?
              && env.grade(desired) != Read(Fail)
              && (approved || AllKept(env.world, env.parse(current).value, env.parse(desired).value))
              && (forall k | 0 <= k < 5 :: !fates(k).raises)
              && Verified(env, env.parse(desired).value, if fates(3).expires then before else edit(before, payload))
  {
    hide Verified, Replay, Behaved, AllKept;
    SucceedsWhen(env, plan, approved, edit, fates, before, calls, r);
  }
}

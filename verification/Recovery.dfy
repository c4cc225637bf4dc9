/** What a crash leaves and what brings it back, for every log that any run can produce. */
module Recovery {
  import opened Wrappers
  import opened Symbols
  import opened Bytes
  import opened Chain
  import opened Files
  import opened Protocol
  import opened Account
  import opened Checks
  import opened Books
  import opened Writing
  import opened Archiving
  import opened Repairing
  import opened Runs

  /** The full check accepts. */
  predicate Verifies(dom: string, d: Disk) { Verify(dom, d.live, d.ledger).Ok? }

  /** The fast check accepts. */
  predicate TailAccepts(dom: string, d: Disk) { Tail(dom, d.live, d.ledger).Ok? }

  /** A disk some run produces. */
  function Reached(dom: string, steps: seq<Step>): Disk { Run(dom, EMPTY_DISK, steps) }

  lemma ReachedHolds(dom: string, steps: seq<Step>) returns (a: Account)
    ensures Holds(dom, Reached(dom, steps), a)
  {
    FreshHolds(dom);
    a := RunHolds(dom, EMPTY_DISK, FRESH, steps);
  }

  lemma BlankIs(dom: string, d: Disk, a: Account)
    requires Holds(dom, d, a) && a.torn == 0
    ensures a.blank <==> d.live == Some([Newline])
  {
    hide HeadOf;
    if !a.blank && d.live.Some? {
      NoTornBytes(dom, a);
      CatNothing(LogOf(dom, a.gone, a.Live()));
      NotBareNewline(dom, a.gone, a.Live());
    }
  }

  lemma NotBareNewline(dom: string, gone: seq<Payload>, bodies: seq<Payload>)
    ensures LogOf(dom, gone, bodies) != [Newline]
  {
    hide HeadOf;
    var ls := LogLines(dom, gone, bodies);
    SplitAll(ls);
    SplitBlank();
    if ls != [] {
      EncodedAt(ls, 0);
    }
  }

  /** The fast check refines the full one on every disk a run can produce, once its torn tail is mended:
      they accept the same logs, with the same head and total, but for a bare newline, which only the full
      check accepts. */
  lemma FastEqualsFull(dom: string, steps: seq<Step>)
    ensures var d := Mended(dom, Reached(dom, steps));
            && (TailAccepts(dom, d) <==> Verifies(dom, d) && d.live != Some([Newline]))
            && (d.live == Some([Newline]) ==> Verifies(dom, d))
            && (TailAccepts(dom, d) ==>
                  var t, p := Tail(dom, d.live, d.ledger).value, Parse(dom, d.live).value;
                  Parse(dom, d.live).Ok? && t.head == Tip(p.head, p.recs) && t.total == p.count + |p.recs|)
  {
    hide Holds, Mended, Tail, Verify, Parse;
    var a := ReachedHolds(dom, steps);
    var d, m := Mended(dom, Reached(dom, steps)), MendedAccount(a);
    MendHolds(dom, Reached(dom, steps), a);
    FastRefinesFull(dom, d, m);
    BlankIs(dom, d, m);
  }

  // ---------------------------------------------------------------- appends

  lemma LiveBytes(dom: string, live: Option<seq<Byte>>, a: Account)
    requires LiveIs(dom, live, a) && a.torn == 0 && !a.blank && a.moving == []
    ensures Content(live) == LogOf(dom, a.gone, a.kept + a.extra)
  {
    hide HeadOf;
    NoTornBytes(dom, a);
    assert a.moving + a.kept == a.kept;
    CatNothing(LogOf(dom, a.gone, a.kept + a.extra));
    if live.None? {
      EmptyLog(dom);
    }
  }

  /** How many records of a write are in the log once its torn tail is mended. */
  lemma Survivors(s: Account, bodies: seq<Payload>, b: Account) returns (k: nat)
    requires Settled(s) && WriteLeaves(s, bodies, b) && Shape(MendedAccount(b)) && bodies != []
    ensures var m := MendedAccount(b);
            && k <= |bodies| && m.kept + m.extra == s.kept + bodies[..k] && m.gone == s.gone
            && m.moving == [] && m.torn == 0 && !m.blank
            && (Consistent(m) <==> k == 0 || k == |bodies|)
  {
    var m := MendedAccount(b);
    if b == s || b == s.(kept := s.kept + bodies) {
      k := if b == s then 0 else |bodies|;
      assert s.kept + [] == s.kept && s.kept + bodies + [] == s.kept + bodies;
      assert bodies[..|bodies|] == bodies;
    } else {
      k := |m.extra|;
      assert m.extra == bodies[..k];
    }
  }

  lemma MoreBytes(dom: string, s: Account, bodies: seq<Payload>)
    requires Settled(s)
    ensures LogOf(dom, s.gone, s.kept + bodies)
         == LogOf(dom, s.gone, s.kept) + Render(RecLines(Build(dom, TailOf(s).head, bodies)))
  {
    assert s.moving + s.kept == s.kept;
    LogOfMore(dom, s.gone, s.kept, bodies);
  }

  /** A write cut short anywhere, on a log that is settled but for its ledger. */
  lemma CrashedWrite(dom: string, d: Disk, s: Account, bodies: seq<Payload>, i: nat) returns (k: nat)
    requires Settled(s) && FilesAre(dom, d, s) && i < |WriteStates(dom, d, TailOf(s), bodies)|
    ensures var c := Mended(dom, WriteStates(dom, d, TailOf(s), bodies)[i]);
            && k <= |bodies|
            && Content(c.live) == Content(d.live) + Render(RecLines(Build(dom, TailOf(s).head, bodies[..k])))
            && (Verifies(dom, c) <==> k == 0 || k == |bodies|)
            && (TailAccepts(dom, c) <==> k == 0 || k == |bodies|)
  {
    hide Holds, Mended, Tail, Verify, Settled, TailOf, WriteLeaves, Consistent, SegmentsAre, IdsAre, LogOf;
    var b := WriteStatesHold(dom, d, s, bodies, i);
    var w := WriteStates(dom, d, TailOf(s), bodies)[i];
    MendHolds(dom, w, b);
    var c, m := Mended(dom, w), MendedAccount(b);
    LiveShape(dom, c, m);
    k := Survivors(s, bodies, b);
    FullCheck(dom, c, m);
    FastCheck(dom, c, m);
    LiveBytes(dom, c.live, m);
    LiveContent(dom, d.live, s);
    MoreBytes(dom, s, bodies[..k]);
  }

  /** Append crash recovery. Whatever run came before, wherever an append of a batch is cut short, what is
      in the log after its torn tail is mended is what was there and the first `k` records of the batch;
      and both checks accept it exactly when that is none or all of them. */
  lemma AppendRecovers(dom: string, steps: seq<Step>, op: Op, i: nat) returns (k: nat)
    requires Appends(op) && Admit(dom, Mended(dom, Reached(dom, steps)), op).Ok?
    requires var m := Mended(dom, Reached(dom, steps));
             var (t, bodies) := Admit(dom, m, op).value;
             i < |WriteStates(dom, m, t, bodies)|
    ensures var m := Mended(dom, Reached(dom, steps));
            var (t, bodies) := Admit(dom, m, op).value;
            var c := Mended(dom, WriteStates(dom, m, t, bodies)[i]);
            && k <= |bodies|
            && Content(c.live) == Content(m.live) + Render(RecLines(Build(dom, t.head, bodies[..k])))
            && (Verifies(dom, c) <==> k == 0 || k == |bodies|)
            && (TailAccepts(dom, c) <==> k == 0 || k == |bodies|)
  {
    hide Holds, Mended, Admit, WriteStates, Verifies, TailAccepts, Settled, FilesAre, Consistent;
    var a := ReachedHolds(dom, steps);
    var d, e, m := Reached(dom, steps), Mended(dom, Reached(dom, steps)), MendedAccount(a);
    MendHolds(dom, d, a);
    AppendAdmits(dom, e, m, op);
    MendedShapes(dom, d, a);
    Settles(dom, e, m);
    k := CrashedWrite(dom, e, AllCommitted(m), Admit(dom, e, op).value.1, i);
  }

  /** An append of a single record recovers by itself. */
  lemma OneRecordRecovers(dom: string, steps: seq<Step>, op: Op, i: nat)
    requires (op.Append? || op.AppendIfAbsent?) && Admit(dom, Mended(dom, Reached(dom, steps)), op).Ok?
    requires var m := Mended(dom, Reached(dom, steps));
             var (t, bodies) := Admit(dom, m, op).value;
             i < |WriteStates(dom, m, t, bodies)|
    ensures var m := Mended(dom, Reached(dom, steps));
            var (t, bodies) := Admit(dom, m, op).value;
            var c := Mended(dom, WriteStates(dom, m, t, bodies)[i]);
            Verifies(dom, c) && TailAccepts(dom, c)
  {
    hide Mended, WriteStates, Verifies, TailAccepts, Reached, Tail, Verify, Seen;
    var k := AppendRecovers(dom, steps, op, i);
    assert |Admit(dom, Mended(dom, Reached(dom, steps)), op).value.1| == 1;
  }

  // ---------------------------------------------------------------- archives

  /** The live log ends in a complete record that only lacks its newline. */
  predicate EndsWhole(dom: string, d: Disk) { ValidLine(dom, Rest(Content(d.live))) }

  lemma EndsWholeIs(dom: string, d: Disk, a: Account)
    requires Holds(dom, d, a)
    ensures EndsWhole(dom, d) <==> a.torn > 0 && a.torn == BodyWidth(a.next)
  {
    hide LogOf, HeadOf, LedgerIs, SegmentsAre, IdsAre;
    if a.blank {
      SplitBlank();
      NothingDecodes(dom);
    } else if d.live.None? {
      NothingDecodes(dom);
    } else {
      RestOfLog(dom, a);
      TornDecodes(dom, a);
    }
  }

  lemma NothingDecodes(dom: string)
    ensures !ValidLine(dom, []) && Rest([]) == []
  {
  }

  lemma RestOfLog(dom: string, a: Account)
    ensures Rest(LogOf(dom, a.gone, a.Live()) + TornBytes(dom, a)) == TornBytes(dom, a)
  {
    hide HeadOf;
    TornIsClean(dom, a);
    SplitRender(LogLines(dom, a.gone, a.Live()), TornBytes(dom, a));
  }

  lemma TornDecodes(dom: string, a: Account)
    requires Shape(a)
    ensures ValidLine(dom, TornBytes(dom, a)) <==> a.torn > 0 && a.torn == BodyWidth(a.next)
  {
    hide HeadOf;
    var r := NextRecord(dom, a);
    if a.torn == 0 {
      NoTornBytes(dom, a);
      NothingDecodes(dom);
    } else if a.torn == Width(Rec(r)) {
      assert TornBytes(dom, a) == Encode(Rec(r));
      DecodeEncode(Rec(r));
    } else {
      DecodePrefix(Rec(r), a.torn);
    }
  }

  /** `repair` on what an archive left when it stopped before replacing the live log. */
  lemma FinishesArchive(dom: string, d: Disk, a: Account, m: seq<Payload>, rest: seq<Payload>, name: string, pl: Plan,
                        s: Disk)
    requires Movable(dom, d, a, m, rest) && PlanIs(dom, d, a, m, rest, name, pl)
    requires Holds(dom, s, Entered(dom, a, m, rest, name)) && s.live == d.live
    ensures var (r, ss) := RepairMended(dom, Mended(dom, s));
            && r == Ok(0) && ss != []
            && (!EndsWhole(dom, d) ==> ss[|ss| - 1] == s.(live := Some(pl.live)))
            && (EndsWhole(dom, d) ==> !Verifies(dom, ss[|ss| - 1]) && !TailAccepts(dom, ss[|ss| - 1]))
  {
    hide LiveIs, LedgerIs, SegmentsAre, IdsAre, HeadOf, Fold, EntryFor, LogOf, RepairMended, EndsWhole, Verify, Tail,
      LedgerFor;
    var e := Entered(dom, a, m, rest, name);
    MendHolds(dom, s, e);
    var x, g := Mended(dom, s), MendedAccount(e);
    MendedShapes(dom, s, e);
    EndsWholeIs(dom, d, a);
    var f := RepairIs(dom, x, g);
    FullCheck(dom, f, CaughtUp(g));
    FastCheck(dom, f, CaughtUp(g));
    assert rest + [] == rest;
    assert x == s.(live := x.live);
  }

  /** Archive crash safety. Whatever run came before, at every state an archive passes through one of these
      holds: the live log is untouched and verifies to the same records; or the archive is complete; or only
      the replacement of the live log is missing, and then `repair` reports success, having rolled it forward
      to exactly the completed archive if and only if the live log did not end in a complete record that
      lacked its newline. In that case it leaves a log that neither check accepts. */
  lemma ArchiveRecovers(dom: string, steps: seq<Step>, n: int, name: string, i: nat)
    requires i < |Passes(dom, Reached(dom, steps), Archive(n, name), None)|
    ensures var d := Reached(dom, steps);
            var all := Passes(dom, d, Archive(n, name), None);
            var s, done := all[i], all[|all| - 1];
            var (r, ss) := RepairMended(dom, Mended(dom, s));
            || s == done
            || (s.live == d.live && Verify(dom, s.live, s.ledger) == Verify(dom, d.live, d.ledger) && Verifies(dom, s))
            || (i == |all| - 2 && r == Ok(0) && ss != []
                && (ss[|ss| - 1] == done <==> !EndsWhole(dom, d))
                && (EndsWhole(dom, d) ==> !Verifies(dom, ss[|ss| - 1]) && !TailAccepts(dom, ss[|ss| - 1])))
    ensures var all := Passes(dom, Reached(dom, steps), Archive(n, name), None);
            |all| > 1 ==> Verifies(dom, all[|all| - 1]) && TailAccepts(dom, all[|all| - 1])
  {
    hide Holds, Passes, Archives, Verify, Tail, RepairMended, EndsWhole, Reached;
    var a := ReachedHolds(dom, steps);
    ArchivePassRecovers(dom, Reached(dom, steps), a, n, name, i);
  }

  /** The last states of an archive: the ledger, then the live log. */
  lemma LastStates(dom: string, d: Disk, name: string, pl: Plan)
    ensures var ss := ArchiveStates(dom, d, name, pl);
            && |ss| > 2 && ss[|ss| - 1] == ss[|ss| - 2].(live := Some(pl.live)) && ss[|ss| - 2].live == d.live
            && forall j | 0 <= j < |ss| - 2 :: ss[j].live == d.live && ss[j].ledger == d.ledger
  {
  }

  lemma ArchivesMeans(dom: string, d: Disk, a: Account, n: int, name: string)
    requires Holds(dom, d, a) && Archives(d, a, n, name)
    ensures name != "" && name !in d.segments && Consistent(a) && Verifies(dom, d)
  {
    hide Holds, Verify;
    FullCheck(dom, d, a);
  }

  lemma DoneVerifies(dom: string, a: Account, m: seq<Payload>, rest: seq<Payload>, name: string, f: Disk)
    requires Holds(dom, f, CaughtUp(Entered(dom, a, m, rest, name)))
    ensures Verifies(dom, f) && (TailAccepts(dom, f) || a.blank)
  {
    hide Holds, Verify, Tail, Fold, EntryFor;
    FullCheck(dom, f, CaughtUp(Entered(dom, a, m, rest, name)));
    FastCheck(dom, f, CaughtUp(Entered(dom, a, m, rest, name)));
  }

  lemma ArchivePassRecovers(dom: string, d: Disk, a: Account, n: int, name: string, i: nat)
    requires Holds(dom, d, a) && i < |Passes(dom, d, Archive(n, name), None)|
    ensures var all := Passes(dom, d, Archive(n, name), None);
            var s, done := all[i], all[|all| - 1];
            var (r, ss) := RepairMended(dom, Mended(dom, s));
            || s == done
            || (s.live == d.live && Verify(dom, s.live, s.ledger) == Verify(dom, d.live, d.ledger) && Verifies(dom, s))
            || (i == |all| - 2 && r == Ok(0) && ss != []
                && (ss[|ss| - 1] == done <==> !EndsWhole(dom, d))
                && (EndsWhole(dom, d) ==> !Verifies(dom, ss[|ss| - 1]) && !TailAccepts(dom, ss[|ss| - 1])))
    ensures var all := Passes(dom, d, Archive(n, name), None);
            |all| > 1 ==> Verifies(dom, all[|all| - 1]) && TailAccepts(dom, all[|all| - 1])
  {
    hide Holds, Passes, Archives, Verify, Tail, RepairMended, EndsWhole, ArchiveStates, PlanIs, Consistent, Entered,
      CaughtUp, Movable, Mended;
    if !Archives(d, a, n, name) {
      ArchiveRefused(dom, d, a, n, name, None);
    } else {
      var m, rest, pl := ArchiveGoes(dom, d, a, n, name, None);
      var ss := ArchiveStates(dom, d, name, pl);
      ArchivesMeans(dom, d, a, n, name);
      LastStates(dom, d, name, pl);
      var b := ArchiveStatesHold(dom, d, a, m, rest, name, pl, |ss| - 1);
      DoneVerifies(dom, a, m, rest, name, ss[|ss| - 1]);
      NotBlank(dom, d, a, m, rest);
      b := ArchiveStatesHold(dom, d, a, m, rest, name, pl, |ss| - 2);
      FinishesArchive(dom, d, a, m, rest, name, pl, ss[|ss| - 2]);
    }
  }

  lemma NotBlank(dom: string, d: Disk, a: Account, m: seq<Payload>, rest: seq<Payload>)
    requires Movable(dom, d, a, m, rest)
    ensures !a.blank
  {
    assert |a.Hist()| >= |a.kept| && |m + rest| > 0;
  }
}

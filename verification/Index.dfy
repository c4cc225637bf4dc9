/** The archived-id index: lines keyed and chained one to the next, of which the live anchor says how
    many count. */
module Index {
  import opened Wrappers
  import opened Symbols
  import opened Bytes
  import opened Files

  /** The chain MAC after the lines for `ids`, starting from `prev`. */
  function IdChain(dom: string, prev: Mac, ids: seq<string>): Mac {
    if ids == [] then prev
    else Keyed(dom, IdText(IdChain(dom, prev, ids[..|ids| - 1]), IdDigest(ids[|ids| - 1])))
  }

  /** `_id_lines`. */
  function IdLines(dom: string, prev: Mac, ids: seq<string>): (ls: seq<Line>)
    ensures |ls| == |ids|
  {
    if ids == [] then []
    else IdLines(dom, prev, ids[..|ids| - 1]) + [IdEntry(IdDigest(ids[|ids| - 1]), IdChain(dom, prev, ids))]
  }

  /** The chain MAC and the bytes of a whole index. */
  function IndexMac(dom: string, ids: seq<string>): Mac { IdChain(dom, ID_START, ids) }

  function IndexFile(dom: string, ids: seq<string>): seq<Byte> { Render(IdLines(dom, ID_START, ids)) }

  /** The bytes of further lines after a whole index. */
  function IndexMore(dom: string, ids: seq<string>, more: seq<string>): seq<Byte> {
    Render(IdLines(dom, IndexMac(dom, ids), more))
  }

  function Digests(ids: seq<string>): set<IdDigest> { set i | i in ids :: IdDigest(i) }

  /** What `_ids_state` has gathered so far: `good`, `counted` and `off` stop at the limit, `prev` goes on. */
  datatype IdsView = IdsView(good: set<IdDigest>, prev: Mac, counted: Mac, count: nat, off: nat)

  const NO_IDS := IdsView({}, ID_START, ID_START, 0, 0)

  /** One more piece of the index. */
  function IdsStep(dom: string, v: IdsView, p: seq<Byte>, limit: nat): Result<IdsView> {
    if p == [] then Ok(if v.count < limit then v.(off := v.off + 1) else v)
    else
      match Decode(p)
      case Some(IdEntry(d, m)) =>
        var want := Keyed(dom, IdText(v.prev, d));
        if m != want then Err(LogCorrupt)
        else if v.count < limit then Ok(IdsView(v.good + {d}, want, want, v.count + 1, v.off + |p| + 1))
        else Ok(v.(prev := want))
      case _ => Err(LogCorrupt)
  }

  function IdsScan(dom: string, ps: seq<seq<Byte>>, limit: nat): Result<IdsView> {
    if ps == [] then Ok(NO_IDS)
    else
      var v :- IdsScan(dom, ps[..|ps| - 1], limit);
      IdsStep(dom, v, ps[|ps| - 1], limit)
  }

  /** `_ids_state(limit)`. */
  function IdsState(dom: string, raw: seq<Byte>, limit: nat): Result<IdsView> {
    var v :- IdsScan(dom, Terminated(raw), limit);
    if v.count < limit then Err(LogCorrupt) else Ok(v)
  }

  /** `_check_ids_bound`: the anchor is current and the index is the one the ledger recorded. */
  function CheckIdsBound(dom: string, lf: LedgerFile, counted: Mac, count: nat): Result<()> {
    var led :- ReadLedger(dom, lf);
    var segs := if led.None? then [] else led.value.segs;
    if count != SumCounts(segs) then Err(LogCorrupt)
    else if count == 0 then Ok(())
    else if segs == [] || segs[|segs| - 1].ids != counted then Err(LogCorrupt)
    else Ok(())
  }

  /** The count of the live anchor, for a log that may be empty or have none. */
  function AnchoredTotal(dom: string, live: Option<seq<Byte>>): Result<nat> {
    match Decode(FirstPiece(Content(live)))
    case Some(Anchor(h, c, m)) =>
      var a :- AnchorOf(dom, h, c, m);
      Ok(a.1)
    case _ => Ok(0)
  }

  /** `archived_has`. */
  function ArchivedHas(dom: string, d: Disk, id: string): Result<bool> {
    var total :- AnchoredTotal(dom, d.live);
    if d.ids.None? then
      if total != 0 then Err(LogCorrupt) else Ok(false)
    else
      var v :- IdsState(dom, d.ids.value, total);
      var _ :- CheckIdsBound(dom, d.ledger, v.counted, v.count);
      Ok(IdDigest(id) in v.good)
  }

  /** A scan that failed has failed for good. */
  lemma {:induction false} ScanFails(dom: string, ps: seq<seq<Byte>>, limit: nat, i: nat)
    requires i <= |ps| && IdsScan(dom, ps[..i], limit).Err?
    ensures IdsScan(dom, ps, limit) == Err(LogCorrupt)
    decreases |ps| - i
  {
    if i == |ps| {
      assert ps[..i] == ps;
      ScanError(dom, ps, limit);
    } else {
      assert ps[..i + 1][..i] == ps[..i];
      ScanFails(dom, ps, limit, i + 1);
    }
  }

  lemma {:induction false} ScanError(dom: string, ps: seq<seq<Byte>>, limit: nat)
    ensures IdsScan(dom, ps, limit).Err? ==> IdsScan(dom, ps, limit).error == LogCorrupt
  {
    if ps != [] {
      ScanError(dom, ps[..|ps| - 1], limit);
    }
  }

  lemma {:induction false} IdLinesCat(dom: string, prev: Mac, xs: seq<string>, ys: seq<string>)
    ensures IdLines(dom, prev, xs + ys) == IdLines(dom, prev, xs) + IdLines(dom, IdChain(dom, prev, xs), ys)
    ensures IdChain(dom, prev, xs + ys) == IdChain(dom, IdChain(dom, prev, xs), ys)
    decreases |ys|
  {
    if ys == [] {
      assert xs + ys == xs;
    } else {
      var init := ys[..|ys| - 1];
      IdLinesCat(dom, prev, xs, init);
      assert (xs + ys)[..|xs + ys| - 1] == xs + init;
    }
  }

  /** One well chained line more. */
  lemma StepChained(dom: string, v: IdsView, id: string, limit: nat)
    ensures var m := Keyed(dom, IdText(v.prev, IdDigest(id)));
            IdsStep(dom, v, Encode(IdEntry(IdDigest(id), m)), limit) == Ok(
              if v.count < limit
              then IdsView(v.good + {IdDigest(id)}, m, m, v.count + 1, v.off + |LineBytes(IdEntry(IdDigest(id), m))|)
              else v.(prev := m))
  {
    DecodeEncode(IdEntry(IdDigest(id), Keyed(dom, IdText(v.prev, IdDigest(id)))));
  }

  /** What the scan of well chained lines has gathered. */
  function Scanned(dom: string, ids: seq<string>, limit: nat): IdsView {
    var n := Min(limit, |ids|);
    IdsView(Digests(ids[..n]), IndexMac(dom, ids), IndexMac(dom, ids[..n]), n, |IndexFile(dom, ids[..n])|)
  }

  lemma DigestsMore(ids: seq<string>, id: string)
    ensures Digests(ids + [id]) == Digests(ids) + {IdDigest(id)}
  {
    assert forall i :: i in ids + [id] <==> i in ids || i == id;
  }

  /** One id more, before and after the limit. */
  lemma ScannedMore(dom: string, init: seq<string>, id: string, limit: nat)
    ensures IdsStep(dom, Scanned(dom, init, limit), Encode(IdEntry(IdDigest(id), IndexMac(dom, init + [id]))), limit)
         == Ok(Scanned(dom, init + [id], limit))
  {
    var ids, n := init + [id], |init|;
    var m := IndexMac(dom, ids);
    assert ids[..n] == init;
    StepChained(dom, Scanned(dom, init, limit), id, limit);
    if n < limit {
      assert init[..n] == init && ids[..n + 1] == ids;
      DigestsMore(init, id);
      IndexFileMore(dom, init, id);
    } else {
      assert init[..limit] == ids[..limit];
    }
  }

  lemma IndexFileMore(dom: string, init: seq<string>, id: string)
    ensures IndexFile(dom, init + [id])
         == IndexFile(dom, init) + LineBytes(IdEntry(IdDigest(id), IndexMac(dom, init + [id])))
    ensures IdLines(dom, ID_START, init + [id])
         == IdLines(dom, ID_START, init) + [IdEntry(IdDigest(id), IndexMac(dom, init + [id]))]
  {
    var ls := IdLines(dom, ID_START, init + [id]);
    assert (init + [id])[..|init|] == init;
    assert ls[..|init|] == IdLines(dom, ID_START, init);
  }

  lemma {:induction false} ScanChained(dom: string, ids: seq<string>, limit: nat)
    ensures IdsScan(dom, Encoded(IdLines(dom, ID_START, ids)), limit) == Ok(Scanned(dom, ids, limit))
  {
    if ids == [] {
      assert ids[..0] == ids;
      assert Digests(ids) == {};
    } else {
      var n := |ids| - 1;
      var init, id := ids[..n], ids[n];
      ScanChained(dom, init, limit);
      assert ids == init + [id];
      ScannedMore(dom, init, id, limit);
      IndexFileMore(dom, init, id);
      var ls := IdLines(dom, ID_START, init);
      var l := IdEntry(IdDigest(id), IndexMac(dom, ids));
      assert (ls + [l])[..|ls|] == ls;
      assert Encoded(ls + [l]) == Encoded(ls) + [Encode(l)];
      ScanLast(dom, Encoded(ls), Encode(l), limit);
    }
  }

  lemma ScanLast(dom: string, ps: seq<seq<Byte>>, p: seq<Byte>, limit: nat)
    requires IdsScan(dom, ps, limit).Ok?
    ensures IdsScan(dom, ps + [p], limit) == IdsStep(dom, IdsScan(dom, ps, limit).value, p, limit)
  {
    assert (ps + [p])[..|ps|] == ps;
  }

  /** The index reads back exactly what counts: with `orphans` chained on and a torn tail after them,
      the first |ids| lines give their digests, their chain MAC and the offset where they end. */
  lemma IndexRoundTrip(dom: string, ids: seq<string>, orphans: seq<string>, torn: seq<Byte>)
    requires NoNewline(torn)
    ensures var raw := IndexFile(dom, ids + orphans) + torn;
            && var r := IdsState(dom, raw, |ids|);
            && r.Ok?
            && r.value.good == Digests(ids)
            && r.value.count == |ids|
            && r.value.counted == IndexMac(dom, ids)
            && r.value.off <= |raw|
            && raw[..r.value.off] == IndexFile(dom, ids)
  {
    var all := ids + orphans;
    SplitRender(IdLines(dom, ID_START, all), torn);
    ScanChained(dom, all, |ids|);
    assert all[..|ids|] == ids;
    IndexExtends(dom, ids, orphans);
    CatAssoc(IndexFile(dom, ids), IndexMore(dom, ids, orphans), torn);
  }

  /** Cut there and written on, it reads back as the concatenation. */
  lemma IndexExtends(dom: string, ids: seq<string>, more: seq<string>)
    ensures IndexFile(dom, ids) + IndexMore(dom, ids, more) == IndexFile(dom, ids + more)
    ensures IdChain(dom, IndexMac(dom, ids), more) == IndexMac(dom, ids + more)
  {
    IdLinesCat(dom, ID_START, ids, more);
    RenderCat(IdLines(dom, ID_START, ids), IdLines(dom, IndexMac(dom, ids), more));
  }

  // ---------------------------------------------------------------- whatever is in the file

  /** Whatever lines the scan has accepted, those that count are the chained lines of some ids. */
  lemma {:induction false} ScanReads(dom: string, ps: seq<seq<Byte>>, limit: nat) returns (ids: seq<string>)
    requires IdsScan(dom, ps, limit).Ok?
    ensures var v := IdsScan(dom, ps, limit).value;
            && v.good == Digests(ids) && v.count == |ids| <= limit && v.counted == IndexMac(dom, ids)
            && (|ids| < limit ==> v.prev == v.counted)
  {
    if ps == [] {
      ids := [];
      assert Digests(ids) == {};
    } else {
      var n := |ps| - 1;
      ids := ScanReads(dom, ps[..n], limit);
      var v := IdsScan(dom, ps[..n], limit).value;
      if ps[n] != [] && v.count < limit {
        var d := Decode(ps[n]).value.digest;
        DigestsMore(ids, d.of);
        assert (ids + [d.of])[..|ids|] == ids;
        assert IdDigest(d.of) == d;
        ids := ids + [d.of];
      }
    }
  }

  /** The chain MAC determines every id before it. */
  lemma {:induction false} MacInjective(dom: string, xs: seq<string>, ys: seq<string>)
    requires IndexMac(dom, xs) == IndexMac(dom, ys)
    ensures xs == ys
    decreases |xs|
  {
    if xs != [] && ys != [] {
      var n, m := |xs| - 1, |ys| - 1;
      MacInjective(dom, xs[..n], ys[..m]);
      assert xs == xs[..n] + [xs[n]] && ys == ys[..m] + [ys[m]];
    }
  }

  /** Whatever bytes the index holds: if it reads back at the limit with the chain MAC of some ids, then exactly
      those ids count. No line can be edited, removed, repeated or moved. */
  lemma IndexTamper(dom: string, raw: seq<Byte>, limit: nat, ids: seq<string>)
    requires IdsState(dom, raw, limit).Ok? && IdsState(dom, raw, limit).value.counted == IndexMac(dom, ids)
    ensures |ids| == limit && IdsState(dom, raw, limit).value.good == Digests(ids)
  {
    var found := ScanReads(dom, Terminated(raw), limit);
    MacInjective(dom, found, ids);
  }

  // ---------------------------------------------------------------- exactly when it reads back

  /** The non-blank finished lines of the file are the chained lines of these ids. */
  predicate HoldsLines(dom: string, ps: seq<seq<Byte>>, all: seq<string>) {
    NonBlank(ps) == Encoded(IdLines(dom, ID_START, all))
  }

  /** What a scan of such lines has gathered, but for the offset. */
  predicate Gathered(dom: string, v: IdsView, all: seq<string>, limit: nat) {
    var n := Min(limit, |all|);
    && v.good == Digests(all[..n]) && v.prev == IndexMac(dom, all) && v.counted == IndexMac(dom, all[..n])
    && v.count == n
  }

  lemma GatheredMore(dom: string, v: IdsView, all: seq<string>, id: string, limit: nat)
    requires Gathered(dom, v, all, limit)
    ensures var p := Encode(IdEntry(IdDigest(id), IndexMac(dom, all + [id])));
            IdsStep(dom, v, p, limit).Ok? && Gathered(dom, IdsStep(dom, v, p, limit).value, all + [id], limit)
  {
    var more, n := all + [id], |all|;
    assert more[..n] == all;
    StepChained(dom, v, id, limit);
    if n < limit {
      assert all[..n] == all && more[..n + 1] == more;
      DigestsMore(all, id);
    } else {
      assert all[..limit] == more[..limit];
    }
  }

  /** The last of some chained lines. */
  lemma LastIdLine(dom: string, all: seq<string>)
    requires all != []
    ensures var init, id := all[..|all| - 1], all[|all| - 1];
            Encoded(IdLines(dom, ID_START, all))
            == Encoded(IdLines(dom, ID_START, init)) + [Encode(IdEntry(IdDigest(id), IndexMac(dom, all)))]
  {
    var init, id := all[..|all| - 1], all[|all| - 1];
    assert all == init + [id];
    IndexFileMore(dom, init, id);
    var ls, l := IdLines(dom, ID_START, init), IdEntry(IdDigest(id), IndexMac(dom, all));
    assert (ls + [l])[..|ls|] == ls;
  }

  lemma {:induction false} LinesScan(dom: string, ps: seq<seq<Byte>>, all: seq<string>, limit: nat)
    requires HoldsLines(dom, ps, all)
    ensures IdsScan(dom, ps, limit).Ok? && Gathered(dom, IdsScan(dom, ps, limit).value, all, limit)
  {
    if ps == [] {
      assert all == [];
      assert Digests(all[..0]) == {};
    } else {
      hide IdsStep, IdLines, Gathered, Digests;
      var n := |ps| - 1;
      if ps[n] == [] {
        LinesScan(dom, ps[..n], all, limit);
        BlankStep(dom, IdsScan(dom, ps[..n], limit).value, all, limit);
      } else {
        NoIdLines(dom);
        assert all != [];
        LastIdLine(dom, all);
        var init, id := all[..|all| - 1], all[|all| - 1];
        assert NonBlank(ps)[..|NonBlank(ps)| - 1] == NonBlank(ps[..n]);
        LinesScan(dom, ps[..n], init, limit);
        GatheredMore(dom, IdsScan(dom, ps[..n], limit).value, init, id, limit);
        assert init + [id] == all;
      }
    }
  }

  lemma NoIdLines(dom: string)
    ensures Encoded(IdLines(dom, ID_START, [])) == []
  {
  }

  lemma BlankStep(dom: string, v: IdsView, all: seq<string>, limit: nat)
    requires Gathered(dom, v, all, limit)
    ensures IdsStep(dom, v, [], limit).Ok? && Gathered(dom, IdsStep(dom, v, [], limit).value, all, limit)
  {
    hide Digests;
  }

  lemma {:induction false} ScannedLines(dom: string, ps: seq<seq<Byte>>, limit: nat) returns (all: seq<string>)
    requires IdsScan(dom, ps, limit).Ok?
    ensures HoldsLines(dom, ps, all) && Gathered(dom, IdsScan(dom, ps, limit).value, all, limit)
  {
    if ps == [] {
      all := [];
      assert Digests(all[..0]) == {};
    } else {
      hide IdLines, Gathered, Digests;
      var n := |ps| - 1;
      all := ScannedLines(dom, ps[..n], limit);
      var v := IdsScan(dom, ps[..n], limit).value;
      if ps[n] == [] {
        BlankStep(dom, v, all, limit);
      } else {
        var l := Decode(ps[n]).value;
        PrevIs(dom, v, all, limit);
        GatheredMore(dom, v, all, l.digest.of, limit);
        MoreIdLine(dom, all, l.digest.of);
        assert IdDigest(l.digest.of) == l.digest;
        assert ps[n] == Encode(IdEntry(IdDigest(l.digest.of), IndexMac(dom, all + [l.digest.of])));
        all := all + [l.digest.of];
      }
    }
  }

  lemma PrevIs(dom: string, v: IdsView, all: seq<string>, limit: nat)
    requires Gathered(dom, v, all, limit)
    ensures v.prev == IndexMac(dom, all)
  {
  }

  lemma MoreIdLine(dom: string, all: seq<string>, id: string)
    ensures IndexMac(dom, all + [id]) == Keyed(dom, IdText(IndexMac(dom, all), IdDigest(id)))
    ensures Encoded(IdLines(dom, ID_START, all + [id]))
         == Encoded(IdLines(dom, ID_START, all)) + [Encode(IdEntry(IdDigest(id), IndexMac(dom, all + [id])))]
  {
    var more := all + [id];
    assert more[..|all|] == all;
    LastIdLine(dom, more);
  }

  /** An index reads back at a limit if and only if its non-blank lines are, from the first to the last, the chained
      lines of some ids, and there are enough of them; and then the first ids up to the limit count. */
  lemma IndexReads(dom: string, raw: seq<Byte>, limit: nat)
    ensures IdsState(dom, raw, limit).Ok? <==>
              exists all :: HoldsLines(dom, Terminated(raw), all) && |all| >= limit
    ensures forall all | HoldsLines(dom, Terminated(raw), all) && |all| >= limit ::
              && IdsState(dom, raw, limit).Ok?
              && IdsState(dom, raw, limit).value.good == Digests(all[..limit])
              && IdsState(dom, raw, limit).value.counted == IndexMac(dom, all[..limit])
  {
    hide HoldsLines, IdsScan;
    forall all | HoldsLines(dom, Terminated(raw), all) && |all| >= limit
      ensures && IdsState(dom, raw, limit).Ok?
              && IdsState(dom, raw, limit).value.good == Digests(all[..limit])
              && IdsState(dom, raw, limit).value.counted == IndexMac(dom, all[..limit])
    {
      LinesScan(dom, Terminated(raw), all, limit);
    }
    if IdsState(dom, raw, limit).Ok? {
      var all := ScannedLines(dom, Terminated(raw), limit);
    }
  }
}

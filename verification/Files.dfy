/** What the log keeps on disk, and what a reader of it concludes: `_parse`, `_read_ledger`,
    `_verify_files`, `_tail` and the torn-tail rule, as functions of the files. */
module Files {
  import opened Wrappers
  import opened Symbols
  import opened Bytes
  import opened Chain

  datatype LedgerFile = Missing | Garbage | Present(ledger: Ledger)

  /** The live log, the head ledger, the archived-id index and the segment files beside the log. */
  datatype Disk = Disk(
    live: Option<seq<Byte>>,
    ledger: LedgerFile,
    ids: Option<seq<Byte>>,
    segments: map<string, seq<Byte>>)

  const EMPTY_DISK := Disk(None, Missing, None, map[])

  const MAX_RECORDS: nat := 1_000_000
  const MAX_LINE: nat := 1_048_576
  const MAX_RECORD_JSON: nat := 262_144
  const MAX_BATCH: nat := 512
  const MAX_TAIL_SCAN: nat := 8_388_608
  const MAX_SEGMENT_ENTRIES: nat := 200

  /** The anchor's head and count, and the records after it; the chain is not checked yet. */
  datatype Parsed = Parsed(head: Hash, count: nat, recs: seq<Record>)

  /** The line of the first piece, if it parses. */
  function FirstLine(ps: seq<seq<Byte>>): Option<Line> { if ps == [] then None else Decode(ps[0]) }

  function Content(f: Option<seq<Byte>>): seq<Byte> { if f.None? then [] else f.value }

  /** An anchor names a head in 64 digits and a count, and its MAC covers both. */
  function AnchorOf(dom: string, head: Hash, count: int, mac: Mac): Result<(Hash, nat)> {
    if (head.Stray? ==> |head.raw| == 64) && count >= 0 && mac == Keyed(dom, AnchorText(head, count))
    then Ok((head, count)) else Err(LogCorrupt)
  }

  function SignedAnchor(dom: string, head: Hash, count: nat): Line {
    Anchor(head, count, Keyed(dom, AnchorText(head, count)))
  }

  /** The records of the pieces: blank lines are skipped, anything else that is no record is corruption. */
  function ParseRecs(ps: seq<seq<Byte>>): Result<seq<Record>> {
    if ps == [] then Ok([])
    else
      var rs :- ParseRecs(ps[..|ps| - 1]);
      var p := ps[|ps| - 1];
      if p == [] then Ok(rs)
      else
        match Decode(p)
        case Some(Rec(r)) => Ok(rs + [r])
        case _ => Err(LogCorrupt)
  }

  /** An anchor counts only as the very first line. */
  function ParsePieces(dom: string, ps: seq<seq<Byte>>): Result<Parsed> {
    match FirstLine(ps)
    case Some(Anchor(h, c, m)) =>
      var a :- AnchorOf(dom, h, c, m);
      var rs :- ParseRecs(ps[1..]);
      Ok(Parsed(a.0, a.1, rs))
    case _ =>
      var rs :- ParseRecs(ps);
      Ok(Parsed(Genesis, 0, rs))
  }

  /** An unterminated last piece is not a record. */
  function Parse(dom: string, live: Option<seq<Byte>>): Result<Parsed> {
    if live.None? then Ok(Parsed(Genesis, 0, [])) else ParsePieces(dom, Terminated(live.value))
  }

  function ReadLedger(dom: string, f: LedgerFile): Result<Option<Ledger>> {
    match f
    case Missing => Ok(None)
    case Garbage => Err(LogCorrupt)
    case Present(l) => if Signed(dom, l) then Ok(Some(l)) else Err(LogCorrupt)
  }

  function SumCounts(segs: seq<Segment>): nat {
    if segs == [] then 0 else SumCounts(segs[..|segs| - 1]) + segs[|segs| - 1].count
  }

  /** The live anchor is exactly the end of the archive segments the ledger lists. */
  predicate AnchorAgrees(l: Ledger, p: Parsed) {
    p.count == SumCounts(l.segs) && (p.count != 0 ==> l.segs != [] && p.head == l.segs[|l.segs| - 1].head)
  }

  /** Exactly the committed state, or exactly the announced one. */
  predicate TipAgrees(l: Ledger, tip: Hash, total: nat) {
    || (l.head == tip && l.total == total)
    || (l.pending.Some? && l.pending.value.head == tip && l.pending.value.total == total)
  }

  /** `_verify_files`: the whole chain, every MAC, and the ledger. */
  function Verify(dom: string, live: Option<seq<Byte>>, lf: LedgerFile): Result<seq<Record>> {
    var p :- Parse(dom, live);
    Judge(dom, p, lf)
  }

  /** The part of `_verify_files` after parsing. */
  function Judge(dom: string, p: Parsed, lf: LedgerFile): Result<seq<Record>> {
    if !Linked(dom, p.head, p.recs) then Err(LogCorrupt)
    else
      var led :- ReadLedger(dom, lf);
      var total := p.count + |p.recs|;
      if led.None? then
        if total != 0 then Err(LogCorrupt) else Ok(p.recs)
      else if AnchorAgrees(led.value, p) && TipAgrees(led.value, Tip(p.head, p.recs), total) then Ok(p.recs)
      else Err(LogCorrupt)
  }

  /** What an append chains onto. */
  datatype TailView = TailView(head: Hash, total: nat, segs: seq<Segment>)

  /** The bytes up to the first newline. */
  function FirstPiece(b: seq<Byte>): seq<Byte> {
    var ps := Terminated(b);
    if ps == [] then Rest(b) else ps[0]
  }

  function LastPiece(b: seq<Byte>): seq<Byte>
    decreases |b|
  {
    if b != [] && b[|b| - 1] == Newline then LastPiece(b[..|b| - 1]) else Rest(b)
  }

  function TailAnchor(dom: string, b: seq<Byte>): Result<(Hash, nat)> {
    if b == [] then Ok((Genesis, 0))
    else
      match Decode(FirstPiece(b))
      case Some(Anchor(h, c, m)) => AnchorOf(dom, h, c, m)
      case Some(Rec(_)) => Ok((Genesis, 0))
      case _ => Err(LogCorrupt)
  }

  function TailRecord(dom: string, b: seq<Byte>): Result<Option<Record>> {
    if LastPiece(b) == [] then Ok(None)
    else
      match Decode(LastPiece(b))
      case Some(Rec(r)) => if Genuine(dom, r) then Ok(Some(r)) else Err(LogCorrupt)
      case Some(Anchor(_, _, _)) => Ok(None)
      case _ => Err(LogCorrupt)
  }

  /** `_tail`: the first and the last line against the ledger, nothing in between. */
  function Tail(dom: string, live: Option<seq<Byte>>, lf: LedgerFile): Result<TailView> {
    var led :- ReadLedger(dom, lf);
    var a :- TailAnchor(dom, Content(live));
    var last :- TailRecord(dom, Content(live));
    TailJudge(led, a, last)
  }

  /** The part of `_tail` after reading. */
  function TailJudge(led: Option<Ledger>, a: (Hash, nat), last: Option<Record>): Result<TailView> {
    if led.None? then
      if last.Some? || a.1 != 0 then Err(LogCorrupt) else Ok(TailView(Genesis, 0, []))
    else
      var l := led.value;
      if a.1 != SumCounts(l.segs) then Err(LogCorrupt)
      else if last.None? then
        if l.head != a.0 || l.total != a.1 then Err(LogCorrupt) else Ok(TailView(a.0, a.1, l.segs))
      else if l.head == last.value.hash then Ok(TailView(l.head, l.total, l.segs))
      else if l.pending.Some? && last.value.hash == l.pending.value.head then
        Ok(TailView(l.pending.value.head, l.pending.value.total, l.segs))
      else Err(LogCorrupt)
  }

  /** A complete, MAC-valid line. */
  predicate ValidLine(dom: string, p: seq<Byte>) {
    match Decode(p)
    case Some(Anchor(h, c, m)) => AnchorOf(dom, h, c, m).Ok?
    case Some(Rec(r)) => Genuine(dom, r)
    case _ => false
  }

  /** `_repair_torn_tail`: a complete record that only lacks its newline gets it back; any other
      unfinished last line goes; one longer than any record is left for the readers to flag. */
  function MendTail(dom: string, b: seq<Byte>): seq<Byte> {
    var p := Rest(b);
    if p == [] || (|b| > MAX_LINE + 2 && |p| >= MAX_LINE + 2) then b
    else if ValidLine(dom, p) then b + [Newline]
    else b[..|b| - |p|]
  }

  function Mended(dom: string, d: Disk): Disk {
    if d.live.None? then d else d.(live := Some(MendTail(dom, d.live.value)))
  }

  function NonBlank(ps: seq<seq<Byte>>): seq<seq<Byte>> {
    if ps == [] then []
    else
      var init, p := NonBlank(ps[..|ps| - 1]), ps[|ps| - 1];
      if p == [] then init else init + [p]
  }

  /** The records among the pieces, anchors skipped; None when a piece is neither. */
  function DecodeRecs(ps: seq<seq<Byte>>): Option<seq<Record>> {
    if ps == [] then Some([])
    else
      var init := DecodeRecs(ps[..|ps| - 1]);
      if init.None? then None
      else
        match Decode(ps[|ps| - 1])
        case Some(Rec(r)) => Some(init.value + [r])
        case Some(Anchor(_, _, _)) => init
        case _ => None
  }

  predicate AllGenuine(dom: string, recs: seq<Record>) {
    forall r | r in recs :: Genuine(dom, r)
  }

  predicate LinksHold(recs: seq<Record>) {
    forall i | 0 < i < |recs| :: recs[i].prev == recs[i - 1].hash
  }

  /** The first position whose record follows `head`, or the length. */
  function After(recs: seq<Record>, head: Hash): (i: nat)
    ensures i <= |recs|
    ensures i < |recs| ==> recs[i].prev == head
    ensures forall j | 0 <= j < i :: recs[j].prev != head
  {
    if recs == [] then 0
    else
      var n := |recs| - 1;
      var i := After(recs[..n], head);
      if i < n || recs[n].prev == head then i else i + 1
  }

  function LastFew(ps: seq<seq<Byte>>, n: nat): seq<seq<Byte>> {
    if |ps| <= n then ps else ps[|ps| - n..]
  }

  /** The non-blank pieces of the last MAX_TAIL_SCAN bytes, without a first one that may be cut off. */
  function WindowOf(b: seq<Byte>): seq<seq<Byte>> {
    var w := Min(|b|, MAX_TAIL_SCAN);
    var buf := LastBytes(b, w);
    var ps := Terminated(buf) + [Rest(buf)];
    NonBlank(if w < |b| then ps[1..] else ps)
  }

  /** The pieces `_records_after` looks at: of those, the last MAX_BATCH + 1. */
  function TailPieces(b: seq<Byte>): seq<seq<Byte>> { LastFew(WindowOf(b), MAX_BATCH + 1) }

  /** The records that follow `head` in a run of checked records. */
  function Following(dom: string, recs: seq<Record>, head: Hash): Option<seq<Record>> {
    if !AllGenuine(dom, recs) || !LinksHold(recs) then None
    else
      var i := After(recs, head);
      if i == |recs| then None else Some(recs[i..])
  }

  /** `_records_after`: the checked records that follow `head` at the end of the log. */
  function RecordsAfter(dom: string, b: seq<Byte>, head: Hash): Option<seq<Record>> {
    var recs := DecodeRecs(TailPieces(b));
    if recs.None? then None else Following(dom, recs.value, head)
  }
}

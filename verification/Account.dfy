/** What the files stand for: the account of a log, and when a disk agrees with it. */
module Account {
  import opened Wrappers
  import opened Symbols
  import opened Bytes
  import opened Chain
  import opened Files
  import opened Index
  import opened Protocol

  /** One archive ever made: its file, everything archived before it, and what it holds. */
  datatype Stretch = Stretch(name: string, before: seq<Payload>, held: seq<Payload>)

  datatype Account = Account(
    gone: seq<Payload>,    // the records the live anchor stands for
    moving: seq<Payload>,  // committed records the ledger says are archived and the live log still holds
    kept: seq<Payload>,    // the other committed records
    batch: seq<Payload>,   // the announced write, if one is outstanding
    extra: seq<Payload>,   // complete records in the live log past the committed ones
    next: Payload,         // the record after those that was being written, and
    torn: nat,             // how many of its bytes are there
    blank: bool,           // the live log is a bare newline
    segs: seq<Segment>,    // the ledger's archive entries
    arch: seq<Stretch>,    // the archives behind them
    orphans: seq<string>,  // ids chained onto the index for an archive that never completed
    idsTorn: seq<Byte>)    // the torn end of the index
  {
    /** Every committed record, from the first one ever. */
    function Hist(): seq<Payload> { gone + (moving + kept) }

    /** Every record the ledger says is archived. */
    function Archived(): seq<Payload> { gone + moving }

    /** The complete records of the live log. */
    function Live(): seq<Payload> { moving + kept + extra }
  }

  const FRESH := Account([], [], [], [], [], Payload("", ""), 0, false, [], [], [], [])

  function Upto(xs: seq<Payload>, n: nat): seq<Payload> { xs[..Min(n, |xs|)] }

  function PayloadIds(xs: seq<Payload>): (ids: seq<string>)
    ensures |ids| == |xs|
    ensures forall i | 0 <= i < |ids| :: ids[i] == xs[i].id
  {
    seq(|xs|, (i: int) requires 0 <= i < |xs| => xs[i].id)
  }

  function BodyWidth(b: Payload): nat { RECORD_WIDTH + |b.id| + |b.text| }

  /** The records of `bodies` as the writer chains them after `gone`. */
  function RecordsAfterAll(dom: string, gone: seq<Payload>, bodies: seq<Payload>): (rs: seq<Record>)
    ensures |rs| == |bodies|
  {
    Build(dom, HeadOf(gone), bodies)
  }

  function LogLines(dom: string, gone: seq<Payload>, bodies: seq<Payload>): seq<Line> {
    AnchorLines(dom, HeadOf(gone), |gone|) + RecLines(RecordsAfterAll(dom, gone, bodies))
  }

  /** The file of a log anchored after `gone` that holds `bodies`. */
  function LogOf(dom: string, gone: seq<Payload>, bodies: seq<Payload>): seq<Byte> {
    Render(LogLines(dom, gone, bodies))
  }

  function NextRecord(dom: string, a: Account): Record { Seal(dom, HeadOf(a.gone + a.Live()), a.next) }

  function TornBytes(dom: string, a: Account): seq<Byte> {
    Encode(Rec(NextRecord(dom, a)))[..Min(a.torn, Width(Rec(NextRecord(dom, a))))]
  }

  /** What can be outstanding at the same time. */
  predicate Shape(a: Account) {
    && |a.batch| <= MAX_BATCH
    && (a.batch != [] ==> a.moving == [] && a.extra <= a.batch)
    && (a.batch == [] ==> |a.extra| <= 1 && (a.torn > 0 ==> a.extra == [] && a.moving != []))
    && (a.torn > 0 ==>
          && a.torn <= BodyWidth(a.next) <= MAX_RECORD_JSON
          && (a.batch != [] ==> |a.extra| < |a.batch| && a.next == a.batch[|a.extra|]))
    && (a.blank ==> a.Hist() == [] && a.extra == [] && a.torn == 0)
  }

  predicate LiveIs(dom: string, live: Option<seq<Byte>>, a: Account) {
    if a.blank then live == Some([Newline])
    else if live.None? then a.gone == [] && a.Live() == [] && a.torn == 0
    else live == Some(LogOf(dom, a.gone, a.Live()) + TornBytes(dom, a))
  }

  function PendingFor(dom: string, hist: seq<Payload>, batch: seq<Payload>): Option<Pending> {
    if batch == [] then None else Some(PendingOf(HeadOf(hist), |hist|, Build(dom, HeadOf(hist), batch)))
  }

  /** The ledger that commits to `hist` and announces `batch`. */
  function LedgerFor(dom: string, hist: seq<Payload>, segs: seq<Segment>, batch: seq<Payload>): Ledger {
    Sign(dom, HeadOf(hist), |hist|, segs, PendingFor(dom, hist, batch))
  }

  predicate LedgerIs(dom: string, d: Disk, a: Account) {
    if d.ledger.Missing? then d.live == None && a.Hist() == [] && a.batch == [] && a.segs == []
    else d.ledger == Present(LedgerFor(dom, a.Hist(), a.segs, a.batch))
  }

  /** An archive entry commits to everything archived up to its end: the head and the index there. */
  predicate EntryOk(dom: string, archived: seq<Payload>, s: Segment, end: nat) {
    && s.count > 0
    && s.head == HeadOf(Upto(archived, end))
    && s.ids == IndexMac(dom, PayloadIds(Upto(archived, end)))
  }

  /** Every entry, the first of which starts after `start` archived records. */
  predicate EntriesOk(dom: string, archived: seq<Payload>, segs: seq<Segment>, start: nat) {
    segs == [] || (
      && EntriesOk(dom, archived, segs[..|segs| - 1], start)
      && EntryOk(dom, archived, segs[|segs| - 1], start + SumCounts(segs)))
  }

  /** Each archive follows the one before, and its file is beside the log. */
  predicate StretchAt(dom: string, segments: map<string, seq<Byte>>, arch: seq<Stretch>, i: nat)
    requires i < |arch|
  {
    && arch[i].before == (if i == 0 then [] else arch[i - 1].before + arch[i - 1].held)
    && arch[i].held != []
    && arch[i].name in segments
    && segments[arch[i].name] == LogOf(dom, arch[i].before, arch[i].held)
  }

  predicate ArchivesOk(dom: string, segments: map<string, seq<Byte>>, arch: seq<Stretch>) {
    forall i | 0 <= i < |arch| :: StretchAt(dom, segments, arch, i)
  }

  /** The newest entry is the newest archive; one the live log has not caught up with holds what is moving. */
  predicate NewestOk(gone: seq<Payload>, moving: seq<Payload>, segs: seq<Segment>, arch: seq<Stretch>) {
    if arch == [] then gone + moving == [] && segs == []
    else
      && segs != []
      && var last, s := arch[|arch| - 1], segs[|segs| - 1];
      && last.before + last.held == gone + moving
      && s.name == last.name && s.name != "" && s.count == |last.held|
      && (moving != [] ==> last.before == gone && last.held == moving)
  }

  predicate SegmentsAre(dom: string, segments: map<string, seq<Byte>>, gone: seq<Payload>, moving: seq<Payload>,
                        segs: seq<Segment>, arch: seq<Stretch>)
  {
    && SumCounts(segs) == |gone| + |moving|
    && EntriesOk(dom, gone + moving, segs, 0)
    && ArchivesOk(dom, segments, arch)
    && NewestOk(gone, moving, segs, arch)
  }

  predicate IdsAre(dom: string, ids: Option<seq<Byte>>, archived: seq<Payload>, orphans: seq<string>, torn: seq<Byte>) {
    if ids.None? then archived == []
    else ids.value == IndexFile(dom, PayloadIds(archived) + orphans) + torn && NoNewline(torn)
  }

  /** The disk is exactly what the account says. */
  predicate Holds(dom: string, d: Disk, a: Account) {
    && Shape(a)
    && LiveIs(dom, d.live, a)
    && LedgerIs(dom, d, a)
    && SegmentsAre(dom, d.segments, a.gone, a.moving, a.segs, a.arch)
    && IdsAre(dom, d.ids, a.Archived(), a.orphans, a.idsTorn)
  }

  /** No archive is half way, and the live records end where the ledger says they do, committed or
      announced. */
  predicate Consistent(a: Account) {
    a.moving == [] && (a.extra == [] || (a.batch != [] && a.extra == a.batch))
  }

  lemma Assoc(a: seq<Payload>, b: seq<Payload>, c: seq<Payload>)
    ensures a + b + c == a + (b + c)
  {
  }

  /** The account after a torn tail is mended. */
  function MendedAccount(a: Account): Account {
    if a.torn > 0 && a.torn == BodyWidth(a.next) then a.(extra := a.extra + [a.next], torn := 0)
    else a.(torn := 0)
  }
}

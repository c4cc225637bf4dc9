/** The keyed hash chain in symbols: hashes and MACs are free constructors, so two of them are equal
    exactly when they were computed from the same things. Strings that are no hash or no MAC of
    anything are `Stray` and `Forged`. */
module Symbols {
  import opened Wrappers

  /** A record without its chain fields. */
  datatype Payload = Payload(id: string, text: string)

  datatype Hash =
    | Genesis
    | Digest(prev: Hash, body: Payload)
    | Stray(raw: string)

  /** The 16 digit digest under which an archived id is remembered. */
  datatype IdDigest = IdDigest(of: string)

  datatype Mac =
    | Keyed(domain: string, text: Text)
    | Forged(raw: string)

  /** Everything the log ever puts under its key. */
  datatype Text =
    | RecordText(hash: Hash)
    | AnchorText(head: Hash, count: int)
    | LedgerText(tip: Hash, total: nat, segs: seq<Segment>, pending: Option<Pending>)
    | IdText(before: Mac, digest: IdDigest)

  datatype Segment = Segment(name: string, head: Hash, count: nat, ids: Mac)

  datatype Pending = Pending(head: Hash, total: nat, hashes: seq<Hash>)

  datatype Record = Record(prev: Hash, body: Payload, hash: Hash, mac: Mac)

  datatype Ledger = Ledger(head: Hash, total: nat, segs: seq<Segment>, pending: Option<Pending>, mac: Mac)

  const ID_START: Mac := Forged("0000000000000000")

  function ComputeHash(r: Record): Hash { Digest(r.prev, r.body) }

  /** A record whose own hash and MAC are right. */
  predicate Genuine(dom: string, r: Record) {
    r.hash == ComputeHash(r) && r.mac == Keyed(dom, RecordText(r.hash))
  }

  function Seal(dom: string, prev: Hash, body: Payload): Record {
    var h := Digest(prev, body);
    Record(prev, body, h, Keyed(dom, RecordText(h)))
  }

  function Sign(dom: string, head: Hash, total: nat, segs: seq<Segment>, pending: Option<Pending>): Ledger {
    Ledger(head, total, segs, pending, Keyed(dom, LedgerText(head, total, segs, pending)))
  }

  predicate Signed(dom: string, l: Ledger) {
    l.mac == Keyed(dom, LedgerText(l.head, l.total, l.segs, l.pending))
  }
}

/** Internal keys: (user key, sequence number, kind) and their order.

    A user key is represented by its rank in the comparator's order, a real
    number: only comparisons of user keys ever matter. Module KeyEncoding shows
    that the bytewise comparator is such an order and that the comparator on
    encoded internal keys agrees with Compare below. */
module Keys {
  type UserKey = real

  const MAX_SEQUENCE: nat := 0xff_ffff_ffff_ffff // kMaxSequenceNumber

  type SeqNo = n: nat | n <= MAX_SEQUENCE

  type byte = b: int | 0 <= b < 256

  type Value = seq<byte>

  datatype Kind = Deletion | Put

  const KIND_FOR_SEEK := Put

  datatype InternalKey = InternalKey(user: UserKey, num: SeqNo, kind: Kind)

  datatype Entry = Entry(key: InternalKey, value: Value)

  function KindCode(k: Kind): nat { if k == Deletion then 0 else 1 }

  /** Sequence number and kind packed into one word. */
  function Tag(k: InternalKey): nat { k.num * 256 + KindCode(k.kind) }

  /** Increasing user key, then decreasing tag. */
  function Compare(a: InternalKey, b: InternalKey): int {
    if a.user < b.user then -1
    else if a.user > b.user then 1
    else if Tag(a) > Tag(b) then -1
    else if Tag(a) < Tag(b) then 1
    else 0
  }

  predicate Less(a: InternalKey, b: InternalKey) { Compare(a, b) < 0 }

  predicate AtMost(a: InternalKey, b: InternalKey) { Compare(a, b) <= 0 }

  /** Where a search for `user` at snapshot `s` starts. */
  function LookupKey(user: UserKey, s: SeqNo): InternalKey { InternalKey(user, s, KIND_FOR_SEEK) }

  /** A run: entries in strictly increasing internal-key order, as a memtable or a table stores them. */
  ghost predicate Sorted(es: seq<Entry>) {
    forall i, j :: 0 <= i < j < |es| ==> Less(es[i].key, es[j].key)
  }
}

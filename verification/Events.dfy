/** The values that flow through the system: enriched Kubernetes events. */
module Events {
  import Seqs

  /** Nanoseconds since Go's zero time; `ZERO_TIME` is what `Time.IsZero` recognises. */
  type Time = int
  const ZERO_TIME: Time := 0

  /** Go's `int32`; sums of counts wrap around. */
  type Int32 = x: int | -0x8000_0000 <= x < 0x8000_0000

  datatype OwnerRef = OwnerRef(kind: string, name: string, uid: string)

  datatype NormalizedEvent = NormalizedEvent(
    clusterName: string,
    namespace: string,
    objectKind: string,
    objectName: string,
    objectUid: string,
    ownerChain: seq<OwnerRef>,
    reason: string,
    message: string,
    count: Int32,
    firstSeen: Time,
    lastSeen: Time)

  /** The (object UID, reason) pair by which both the store and the deduplicator merge events. */
  datatype DedupKey = DedupKey(objectUid: string, reason: string)

  function KeyOf(e: NormalizedEvent): DedupKey {
    DedupKey(e.objectUid, e.reason)
  }

  /** Two's-complement truncation to 32 bits. */
  function Wrap32(x: int): Int32 {
    (x + 0x8000_0000) % 0x1_0000_0000 - 0x8000_0000
  }

  /** Wrapping after every addition loses nothing against wrapping once at the end. */
  lemma WrapAdd(a: int, b: int)
    ensures Wrap32(Wrap32(a) + b) == Wrap32(a + b)
  {
  }

  lemma WrapFits(x: int)
    ensures Wrap32(x) == x <==> -0x8000_0000 <= x < 0x8000_0000
  {
  }

  function CountOf(e: NormalizedEvent): int {
    e.count
  }

  /** Mathematical (unbounded) total of the counts. */
  function SumCounts(s: seq<NormalizedEvent>): int {
    Seqs.Sum(CountOf, s)
  }
}

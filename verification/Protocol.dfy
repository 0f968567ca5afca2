/** Wire types of the sync protocol (protocol/src/sync.rs) and the values they carry.

    Page numbers are naturals: every statement below holds for all of them, so in
    particular for the 32-bit numbers of the source.  Only the 64-bit counters and the
    reader's cursor depend on a width, and there it is written out. */
module Protocol {

  datatype Option<+T> = None | Some(value: T)

  type Byte = n: nat | n < 256
  type Bytes = seq<Byte>

  const DIGEST_LENGTH := 32
  type Digest = d: Bytes | |d| == DIGEST_LENGTH witness seq(DIGEST_LENGTH, _ => 0)

  /** `page_hash`: any function to 32-byte digests.  Nothing else is assumed of it here;
      the results that need more (equal digests mean equal pages) say so. */
  type Hash = Bytes -> Digest

  function DigestOf(h: Hash, data: Bytes): Digest {
    h(data)
  }

  const PROTOCOL_VERSION: nat := 1
  const DEFAULT_PAGE_SIZE: nat := 4096

  datatype PageDataEntry = PageDataEntry(pageNo: nat, data: Bytes)

  datatype SyncMessage =
    | Hello(protocolVersion: nat, pageSize: nat, maxPage: nat)
    | HelloReply(protocolVersion: nat, pageSize: nat, maxPage: nat)
    | PageHash(pageNo: nat, hash: Bytes)
    | PageHashBatch(startPage: nat, endPage: nat, combinedHash: Bytes)
    | RequestPage(pageNo: nat)
    | RequestPages(pageNumbers: seq<nat>)
    | HashMismatch(pageNo: nat)
    | HashMismatchBatch(pageNumbers: seq<nat>)
    | PageData(pageNo: nat, data: Bytes)
    | PageDataBatch(pages: seq<PageDataEntry>)
    | Complete
    | SyncComplete(pagesTransferred: nat, bytesTransferred: nat)
    | Error(message: string)

  /** The direction a verified sync token grants. */
  datatype Direction = Push | Pull

  const U64_MODULUS: nat := 0x1_0000_0000_0000_0000

  /** What a 64-bit counter shows after `n` has been counted. */
  function Wrap64(n: nat): (r: nat)
    ensures r < U64_MODULUS
    ensures n < U64_MODULUS ==> r == n
  {
    n % U64_MODULUS
  }

  lemma {:induction false} Wrap64Adds(a: nat, b: nat)
    ensures Wrap64(Wrap64(a) + b) == Wrap64(a + b)
  {
  }
}

/** Shared types of the active-message transport: the constants of the RMI
    class, the message header and its attribute word, the payload of a
    huge-message announcement and the events the transport hands to the
    network. */
module Wire {

  datatype Option<T> = None | Some(value: T)

  /** A `size_t` value. */
  type SizeT = x: int | 0 <= x < 0x1_0000_0000_0000_0000

  // Constants of class RMI (declared in worldrmi.h).
  const ALIGNMENT: nat := 64
  const HEADER_LEN: nat := ALIGNMENT
  const WORD_BYTES: nat := 8                            // sizeof(size_t)
  const DEFAULT_MAX_MSG_LEN: nat := 3 * 512 * 1024
  const DEFAULT_NRECV: int := 128
  const MIN_BUFFER_SIZE: nat := 1024

  /** Words of the header area at the front of every message (`nword`). */
  const HEADER_WORDS: nat := HEADER_LEN / WORD_BYTES
  /** Words of the huge-message announcement (`info[nword+2]`). */
  const ANNOUNCE_WORDS: nat := HEADER_WORDS + 2
  /** Bytes of the announcement (`sizeof(info)`). */
  const ANNOUNCE_BYTES: nat := ANNOUNCE_WORDS * WORD_BYTES

  /** The handler a message names: the transport's own huge-message handler,
      or an opaque user handler resolved on the receiving side. */
  datatype Handler = HugeMsgHandler | UserHandler(id: nat)

  /** The header at the front of every message buffer. */
  datatype Header = Header(func: Handler, attr: Attr)

  /** Network tags used by the transport. */
  datatype Tag = RmiTag | HugeAckTag | HugeDatTag

  /** The 32-bit attribute word of a header (`attrT`). */
  type Attr = x: int | 0 <= x < 0x1_0000_0000

  /** A value of the `unsigned short` sequence counters. */
  type Count = x: int | 0 <= x < 0x1_0000

  const ATTR_UNORDERED: Attr := 0x0
  const ATTR_ORDERED: Attr := 0x1

  /** `attr & ATTR_ORDERED`: whether the attribute word asks for ordered
      delivery. `ATTR_ORDERED` is bit 0, so this is the parity of `attr`. */
  predicate IsOrdered(attr: Attr): (r: bool)
    ensures r <==> ((attr as bv32) & 1) != 0
  {
    attr % 2 == 1
  }

  /** `++` on an `unsigned short`: wraps from 0xFFFF to 0. */
  function Inc(c: Count): (r: Count)
    ensures r == (c + 1) % 0x1_0000
  {
    if c == 0xFFFF then 0 else c + 1
  }

  /** The 16-bit sequence count carried in bits 16 and up of `attr`
      (`attr >> 16`). */
  function CountOf(attr: Attr): (r: Count)
    ensures r * 0x1_0000 <= attr < (r + 1) * 0x1_0000
  {
    attr / 0x1_0000
  }

  function Pow2(k: nat): (r: nat)
    ensures r >= 1
  {
    if k == 0 then 1 else 2 * Pow2(k - 1)
  }

  /** Bitwise `|` of the low `k` bits of `a` and `b`. */
  function OrBits(a: nat, b: nat, k: nat): (r: nat)
    ensures r < Pow2(k)
    ensures a < Pow2(k) && b < Pow2(k) && a == 0 ==> r == b
  {
    if k == 0 then 0
    else (if a % 2 == 1 || b % 2 == 1 then 1 else 0) + 2 * OrBits(a / 2, b / 2, k - 1)
  }

  /** `attr | (count << 16)`: the attribute word of an ordered send. The low
      16 bits of `attr` (the flag bits) are kept, and when the caller's
      `attr` has nothing in bits 16 and up, the receiver's `attr >> 16` gives
      `count` back. */
  function StampAttr(attr: Attr, count: Count): (r: Attr)
    ensures r % 0x1_0000 == attr % 0x1_0000
    ensures IsOrdered(r) == IsOrdered(attr)
    ensures attr < 0x1_0000 ==> CountOf(r) == count
  {
    assert Pow2(16) == 0x1_0000 by { Pow2Is16(); }
    var high := OrBits(attr / 0x1_0000, count, 16);
    var r := attr % 0x1_0000 + high * 0x1_0000;
    assert r / 0x1_0000 == high;
    assert r % 2 == attr % 2 by { ModTwo(attr, high); }
    r
  }

  lemma Pow2Is16()
    ensures Pow2(16) == 0x1_0000
  {
    assert Pow2(2) == 4;
    assert Pow2(4) == 16;
    assert Pow2(6) == 64;
    assert Pow2(8) == 256;
    assert Pow2(10) == 1024;
    assert Pow2(12) == 4096;
    assert Pow2(14) == 0x4000;
  }

  lemma ModTwo(attr: Attr, high: nat)
    ensures (attr % 0x1_0000 + high * 0x1_0000) % 2 == attr % 2
  {
    var lo := attr % 0x1_0000;
    assert attr == (attr / 0x1_0000) * 0x1_0000 + lo;
    assert high * 0x1_0000 == 2 * (high * 0x8000);
    assert (attr / 0x1_0000) * 0x1_0000 == 2 * ((attr / 0x1_0000) * 0x8000);
  }

  /** A queued huge transfer: who sends it and how many bytes it has. */
  datatype HugeReq = HugeReq(src: nat, nbyte: SizeT)

  /** The announcement payload: `rank` and `nbyte` in the two words that
      follow the header area; the header area itself is overwritten by the
      header when the announcement is sent, and is zero here. */
  function AnnounceInfo(rank: SizeT, nbyte: SizeT): (info: seq<SizeT>)
    ensures |info| == ANNOUNCE_WORDS
    ensures |info| * WORD_BYTES == ANNOUNCE_BYTES
    ensures info[HEADER_WORDS] == rank && info[HEADER_WORDS + 1] == nbyte
  {
    seq(HEADER_WORDS, _ => 0) + [rank, nbyte]
  }

  /** What `huge_msg_handler` reads from the announcement buffer: the source
      and the size in the two words after the header. On an announcement it
      is what the sender wrote. */
  function HugeInfo(info: seq<SizeT>): (r: HugeReq)
    requires |info| >= ANNOUNCE_WORDS
    ensures forall rank: SizeT, nbyte: SizeT :: info == AnnounceInfo(rank, nbyte) ==> r == HugeReq(rank, nbyte)
  {
    HugeReq(info[HEADER_WORDS], info[HEADER_WORDS + 1])
  }

  /** The huge-message handler reads back exactly what the sender wrote. */
  lemma AnnounceRoundTrip(rank: SizeT, nbyte: SizeT)
    ensures HugeInfo(AnnounceInfo(rank, nbyte)) == HugeReq(rank, nbyte)
  {
  }

  /** The announcement is a legal ordinary message: it holds a header and it
      fits an ordinary receive buffer of any normalised size. */
  lemma AnnounceIsOrdinary()
    ensures HEADER_LEN <= ANNOUNCE_BYTES <= MIN_BUFFER_SIZE
  {
  }

  /** What the transport hands to the network, in order. `Isent` is one
      non-blocking send; `stamp` is the send counter it used when ordered.
      The others are the steps of the huge-message protocol on the sending
      side: posting the receive for the acknowledgement, and the two waits
      (announcement send complete, acknowledgement arrived). */
  datatype NetEvent =
    | Isent(dest: nat, tag: Tag, nbyte: nat, hdr: Header, data: seq<SizeT>, stamp: Option<Count>)
    | AckRecvPosted(from: nat)
    | AnnounceDone(dest: nat)
    | AckArrived(from: nat)

  /** Handler invocation on the receiving side: `func(buf, len)` for a
      message from `src` that arrived in buffer slot `slot`. */
  datatype Delivery = Delivery(src: nat, slot: nat, len: nat, func: Handler, attr: Attr)
}

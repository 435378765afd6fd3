/**
 * The contract of a JACK ring buffer as the plugin relies on it: a bounded
 * byte FIFO with one writer and one reader. A write copies as many of the
 * offered bytes as fit; a read removes up to the requested count from the
 * front. The circular storage itself is foreign code and is not modelled.
 */
module Ring {
  import opened CTypes

  datatype RingBuffer = RingBuffer(capacity: nat, content: seq<Byte>)

  /** A ring never holds more than its capacity. */
  type Ring = r: RingBuffer | |r.content| <= r.capacity witness RingBuffer(0, [])

  /** jack_ringbuffer_read_space: bytes ready to be read. */
  function ReadSpace(r: Ring): nat
  {
    |r.content|
  }

  /** jack_ringbuffer_write_space: bytes that can still be written. */
  function WriteSpace(r: Ring): nat
  {
    r.capacity - |r.content|
  }

  function Min(a: nat, b: nat): nat
  {
    if a <= b then a else b
  }

  /** Number of bytes jack_ringbuffer_write accepts out of `count` offered. */
  function Accepted(r: Ring, count: nat): (n: nat)
    ensures n <= count && n <= WriteSpace(r)
    ensures n == count || n == WriteSpace(r)
  {
    Min(count, WriteSpace(r))
  }

  /** The ring after jack_ringbuffer_write offered `bytes`. */
  function AfterWrite(r: Ring, bytes: seq<Byte>): (w: Ring)
    ensures w.capacity == r.capacity
    ensures ReadSpace(w) == ReadSpace(r) + Accepted(r, |bytes|)
  {
    RingBuffer(r.capacity, r.content + bytes[..Accepted(r, |bytes|)])
  }

  /** A write keeps the old content in front and appends the accepted bytes after it. */
  lemma WriteAppends(r: Ring, bytes: seq<Byte>)
    ensures AfterWrite(r, bytes).content[..|r.content|] == r.content
    ensures AfterWrite(r, bytes).content[|r.content|..] == bytes[..Accepted(r, |bytes|)]
  {
  }

  /** Number of bytes jack_ringbuffer_read delivers when asked for `count`. */
  function Delivered(r: Ring, count: nat): (n: nat)
    ensures n <= count && n <= ReadSpace(r)
    ensures n == count || n == ReadSpace(r)
  {
    Min(count, ReadSpace(r))
  }

  /** The bytes jack_ringbuffer_read copies out: the oldest ones. */
  function ReadBytes(r: Ring, count: nat): (bs: seq<Byte>)
    ensures |bs| == Delivered(r, count)
  {
    r.content[..Delivered(r, count)]
  }

  /** The ring after jack_ringbuffer_read of `count` bytes. */
  function AfterRead(r: Ring, count: nat): (w: Ring)
    ensures w.capacity == r.capacity
    ensures ReadBytes(r, count) + w.content == r.content
  {
    RingBuffer(r.capacity, r.content[Delivered(r, count)..])
  }

  /** An offer that fits in the write space is taken whole. */
  lemma WriteWithinSpace(r: Ring, bytes: seq<Byte>)
    requires |bytes| <= WriteSpace(r)
    ensures AfterWrite(r, bytes).content == r.content + bytes
    ensures WriteSpace(AfterWrite(r, bytes)) == WriteSpace(r) - |bytes|
  {
    assert bytes[..Accepted(r, |bytes|)] == bytes;
  }

  /**
   * First in, first out: after a write, a read hands out the old content
   * before any of the new bytes.
   */
  lemma WriteThenRead(r: Ring, bytes: seq<Byte>, count: nat)
    ensures ReadBytes(AfterWrite(r, bytes), count)
      == (r.content + bytes[..Accepted(r, |bytes|)])[..Delivered(AfterWrite(r, bytes), count)]
    ensures count <= ReadSpace(r) ==> ReadBytes(AfterWrite(r, bytes), count) == ReadBytes(r, count)
  {
    var w := AfterWrite(r, bytes);
    assert w.content == r.content + bytes[..Accepted(r, |bytes|)];
    if count <= ReadSpace(r) {
      assert w.content[..count] == r.content[..count];
    }
  }

  /** A read frees exactly the space of the bytes it delivered. */
  lemma ReadFreesSpace(r: Ring, count: nat)
    ensures WriteSpace(AfterRead(r, count)) == WriteSpace(r) + Delivered(r, count)
  {
  }
}

/**
 * The wire format of PacketStreamFilter, independent of the filter: a packet is a four byte
 * big-endian length followed by that many bytes, and a length of zero or above the limit is
 * a format error.  `limit` stands for PROTOCOL_MAX_MESSAGE_LENGTH.
 */
module Framing {
  import opened Bytes

  type Payload = seq<byte>

  ghost predicate GoodSize(limit: nat, n: int) {
    1 <= n <= limit
  }

  ghost predicate Sendable(limit: nat, packets: seq<Payload>) {
    forall i :: 0 <= i < |packets| ==> GoodSize(limit, |packets[i]|)
  }

  /** Payloads that `write` can be given: their length is a 32-bit number. */
  ghost predicate Writable(packets: seq<Payload>) {
    forall i :: 0 <= i < |packets| ==> |packets[i]| < TWO_TO_THE_32
  }

  function Frame(p: Payload): (r: seq<byte>)
    requires |p| < TWO_TO_THE_32
    ensures |r| == 4 + |p|
  {
    ToBE32(|p|) + p
  }

  function FrameAll(packets: seq<Payload>): (r: seq<byte>)
    requires Writable(packets)
  {
    if packets == [] then [] else Frame(packets[0]) + FrameAll(packets[1..])
  }

  lemma {:induction false} FrameAllPlus(a: seq<Payload>, b: seq<Payload>)
    requires Writable(a) && Writable(b)
    ensures Writable(a + b)
    ensures FrameAll(a + b) == FrameAll(a) + FrameAll(b)
  {
    if a == [] {
      assert a + b == b;
    } else {
      hide Frame;
      FrameAllPlus(a[1..], b);
      var c := a + b;
      assert c[0] == a[0] && c[1..] == a[1..] + b;
      assert FrameAll(c) == Frame(a[0]) + (FrameAll(a[1..]) + FrameAll(b));
    }
  }

  lemma FrameAllAppend(a: seq<Payload>, p: Payload)
    requires Writable(a) && |p| < TWO_TO_THE_32
    ensures Writable(a + [p])
    ensures FrameAll(a + [p]) == FrameAll(a) + Frame(p)
  {
    FrameAllPlus(a, [p]);
    assert FrameAll([p]) == Frame(p) + FrameAll([]);
  }

  /**
   * The relation between the bytes received so far and what the reader has been given: the
   * whole packets `done`, then the first bytes `partial` of the packet being read.
   */
  ghost predicate Delivered(limit: nat, received: seq<byte>, done: seq<Payload>, partial: Payload) {
    && limit < TWO_TO_THE_32
    && Sendable(limit, done)
    && FrameAll(done) <= received
    && var rest := received[|FrameAll(done)|..];
    partial != [] ==>
      && 4 <= |rest|
      && |partial| < FromBE32(rest[..4]) <= limit
      && partial <= rest[4..]
  }

  /** The undelivered bytes. */
  ghost function Rest(received: seq<byte>, done: seq<Payload>): (r: seq<byte>)
    requires Writable(done) && FrameAll(done) <= received
    ensures received == FrameAll(done) + r
  {
    received[|FrameAll(done)|..]
  }

  /** The first frame of a stream is determined by its bytes. */
  lemma HeadsAgree(d: Payload, ds: seq<byte>, s: Payload, ss: seq<byte>)
    requires |d| < TWO_TO_THE_32 && |s| < TWO_TO_THE_32
    requires Frame(d) + ds <= Frame(s) + ss
    ensures d == s && ds <= ss
  {
    var x, y := Frame(d) + ds, Frame(s) + ss;
    assert x[..4] == ToBE32(|d|) && y[..4] == ToBE32(|s|);
    assert x[..4] == y[..4];
    BE32RoundTrip(|d|);
    BE32RoundTrip(|s|);
    assert x[4..4 + |d|] == d && y[4..4 + |d|] == s;
    assert x[4 + |d|..] == ds && y[4 + |d|..] == ss;
  }

  /** The whole packets delivered are the first ones that were sent, whatever else was sent. */
  lemma {:induction false} DeliveredIsPrefix(sent: seq<Payload>, received: seq<byte>, done: seq<Payload>)
    requires Writable(sent) && Writable(done)
    requires received <= FrameAll(sent)
    requires FrameAll(done) <= received
    ensures done <= sent
    ensures Rest(received, done) <= FrameAll(sent[|done|..])
  {
    if done == [] {
      assert sent[0..] == sent;
    } else {
      hide ToBE32;
      var d, s := done[0], sent[0];
      var tail := received[|Frame(d)|..];
      assert received == Frame(d) + tail && FrameAll(done[1..]) <= tail;
      HeadsAgree(d, tail, s, FrameAll(sent[1..]));
      DeliveredIsPrefix(sent[1..], tail, done[1..]);
      assert done == [d] + done[1..] && sent == [s] + sent[1..];
      assert sent[1..][|done[1..]|..] == sent[|done|..];
      assert Rest(received, done) == Rest(tail, done[1..]);
    }
  }

  /** What follows is the header and then the bytes of the next packet sent. */
  lemma NextHeader(sent: seq<Payload>, received: seq<byte>, done: seq<Payload>, p: Payload)
    requires Writable(sent) && Writable(done)
    requires received <= FrameAll(sent)
    requires FrameAll(done) <= received
    requires 4 <= |Rest(received, done)| && p <= Rest(received, done)[4..]
    ensures done < sent
    ensures FromBE32(Rest(received, done)[..4]) == |sent[|done|]|
    ensures |p| <= |sent[|done|]| ==> p <= sent[|done|]
  {
    DeliveredIsPrefix(sent, received, done);
    FirstHeader(sent[|done|..], Rest(received, done), p);
  }

  lemma FirstHeader(sent: seq<Payload>, received: seq<byte>, p: Payload)
    requires Writable(sent)
    requires received <= FrameAll(sent)
    requires 4 <= |received| && p <= received[4..]
    ensures sent != []
    ensures FromBE32(received[..4]) == |sent[0]|
    ensures |p| <= |sent[0]| ==> p <= sent[0]
  {
    var next := sent[0];
    var all := FrameAll(sent);
    assert all == ToBE32(|next|) + (next + FrameAll(sent[1..]));
    assert received[..4] == all[..4] == ToBE32(|next|);
    BE32RoundTrip(|next|);
    if |p| <= |next| {
      assert p == received[4..4 + |p|] == all[4..4 + |p|] == next[..|p|];
    }
  }

  /** A partly read packet is a beginning of the next packet sent: reads never cross a boundary. */
  lemma PartialIsPrefix(limit: nat, sent: seq<Payload>, received: seq<byte>,
                        done: seq<Payload>, partial: Payload)
    requires Writable(sent)
    requires received <= FrameAll(sent)
    requires Delivered(limit, received, done, partial)
    ensures done <= sent
    ensures partial != [] ==> done < sent && partial < sent[|done|]
  {
    DeliveredIsPrefix(sent, received, done);
    if partial != [] {
      NextHeader(sent, received, done, partial);
    }
  }

  /**
   * A reader's place in the received bytes: `size` bytes of the packet in progress are still to
   * be read (none if it is zero) and `buffer` is what has been received of them and of what
   * follows.
   */
  ghost predicate At(limit: nat, received: seq<byte>, done: seq<Payload>, partial: Payload,
                     size: nat, buffer: seq<byte>)
  {
    && Delivered(limit, received, done, partial)
    && var rest := Rest(received, done);
    if size == 0 then partial == [] && rest == buffer
    else 4 <= |rest| && FromBE32(rest[..4]) == |partial| + size <= limit && rest[4..] == partial + buffer
  }

  /** A reader that stopped before a header that is not an allowed length. */
  ghost predicate AtBadHeader(limit: nat, received: seq<byte>, done: seq<Payload>) {
    && Delivered(limit, received, done, [])
    && 4 <= |Rest(received, done)|
    && !GoodSize(limit, FromBE32(Rest(received, done)[..4]))
  }

  /** A whole packet of an allowed length stands at the beginning of the bytes. */
  ghost predicate PacketAt(limit: nat, bytes: seq<byte>) {
    && 4 <= |bytes|
    && GoodSize(limit, FromBE32(bytes[..4]))
    && 4 + FromBE32(bytes[..4]) <= |bytes|
  }

  /** The whole packets that bytes begin with, up to one that is incomplete or not allowed. */
  ghost function Whole(limit: nat, bytes: seq<byte>): (packets: seq<Payload>)
    ensures Sendable(limit, packets)
    decreases |bytes|
  {
    if !PacketAt(limit, bytes) then []
    else
      var end := 4 + FromBE32(bytes[..4]);
      [bytes[4..end]] + Whole(limit, bytes[end..])
  }

  lemma WholeOrNot(limit: nat, bytes: seq<byte>)
    ensures Whole(limit, bytes) != [] <==> PacketAt(limit, bytes)
  {
  }

  /** The whole packets received and not yet delivered. */
  ghost function Ahead(limit: nat, received: seq<byte>, done: seq<Payload>): seq<Payload> {
    if Writable(done) && FrameAll(done) <= received then Whole(limit, Rest(received, done)) else []
  }

  /** Delivering the next whole packet leaves the others ahead. */
  lemma AheadNext(limit: nat, received: seq<byte>, done: seq<Payload>)
    requires Writable(done) && FrameAll(done) <= received
    requires Ahead(limit, received, done) != [] && limit < TWO_TO_THE_32
    ensures var ahead := Ahead(limit, received, done);
            var next := done + [ahead[0]];
            Writable(next) && FrameAll(next) <= received && Ahead(limit, received, next) == ahead[1..]
  {
    var rest := Rest(received, done);
    var end := 4 + FromBE32(rest[..4]);
    var p := rest[4..end];
    BE32Injective(rest[..4]);
    assert rest == Frame(p) + rest[end..];
    FrameAllAppend(done, p);
    assert received == FrameAll(done + [p]) + rest[end..];
    assert Rest(received, done + [p]) == rest[end..];
  }

  /** At the beginning of a packet, the filter is ready exactly if a whole packet is ahead: that one. */
  lemma AheadHere(limit: nat, received: seq<byte>, done: seq<Payload>, size: nat, buffer: seq<byte>)
    requires At(limit, received, done, [], size, buffer) && (size == 0 ==> |buffer| < 4)
    ensures var ahead := Ahead(limit, received, done);
            && (0 < size <= |buffer| <==> ahead != [])
            && (ahead != [] ==> size == |ahead[0]| && buffer[..size] == ahead[0]
                                && (PacketAt(limit, buffer[size..]) <==> |ahead| > 1))
  {
    hide FrameAll, FromBE32;
    var rest := Rest(received, done);
    if 0 < size <= |buffer| {
      assert rest[4..] == buffer;
      assert rest[4..4 + size] == buffer[..size] && rest[4 + size..] == buffer[size..];
      assert Ahead(limit, received, done) == [buffer[..size]] + Whole(limit, buffer[size..]);
      WholeOrNot(limit, buffer[size..]);
    }
  }

  /** Nothing is ahead of a bad header, whatever follows. */
  lemma NothingAhead(limit: nat, received: seq<byte>, done: seq<Payload>, more: seq<byte>)
    requires AtBadHeader(limit, received, done)
    ensures FrameAll(done) <= received + more && Ahead(limit, received + more, done) == []
  {
    hide FrameAll, FromBE32;
    assert Rest(received + more, done) == Rest(received, done) + more;
    assert Rest(received + more, done)[..4] == Rest(received, done)[..4];
  }

  ghost function DoneAfter(done: seq<Payload>, partial: Payload, size: nat, out: Payload): seq<Payload> {
    if |out| < size then done else done + [partial + out]
  }

  ghost function PartialAfter(partial: Payload, size: nat, out: Payload): Payload {
    if |out| < size then partial + out else []
  }

  /** Handing over some of the bytes of the packet in progress keeps the place. */
  lemma HandOver(limit: nat, received: seq<byte>, done: seq<Payload>, partial: Payload,
                 size: nat, buffer: seq<byte>, out: Payload)
    requires At(limit, received, done, partial, size, buffer)
    requires 0 < |out| <= size && out <= buffer
    ensures At(limit, received, DoneAfter(done, partial, size, out), PartialAfter(partial, size, out),
               size - |out|, buffer[|out|..])
  {
    var rest := Rest(received, done);
    var packet := partial + out;
    assert rest[4..] == packet + buffer[|out|..];
    if |out| == size {
      BE32Injective(rest[..4]);
      assert rest == Frame(packet) + buffer[|out|..];
      FrameAllAppend(done, packet);
      assert received == FrameAll(done + [packet]) + buffer[|out|..];
    }
  }

  /** Receiving more bytes keeps the place. */
  lemma MoreArrives(limit: nat, received: seq<byte>, done: seq<Payload>, partial: Payload,
                    size: nat, buffer: seq<byte>, more: seq<byte>)
    requires At(limit, received, done, partial, size, buffer)
    ensures At(limit, received + more, done, partial, size, buffer + more)
  {
    hide FrameAll, FromBE32;
    var rest, longer := Rest(received, done), Rest(received + more, done);
    assert longer == rest + more;
    if 4 <= |rest| {
      assert longer[..4] == rest[..4] && longer[4..] == rest[4..] + more;
    }
  }

  /** The packet in progress is the next one sent. */
  lemma InProgress(limit: nat, sent: seq<Payload>, received: seq<byte>, done: seq<Payload>, partial: Payload,
                   size: nat, buffer: seq<byte>)
    requires Writable(sent) && received <= FrameAll(sent)
    requires At(limit, received, done, partial, size, buffer) && size > 0
    ensures done < sent && |partial| + size == |sent[|done|]|
  {
    NextHeader(sent, received, done, []);
  }

  /** Between packets, and only there, fewer than four undelivered bytes are left. */
  lemma BetweenPackets(limit: nat, received: seq<byte>, done: seq<Payload>, partial: Payload,
                       size: nat, buffer: seq<byte>)
    requires At(limit, received, done, partial, size, buffer)
    requires size == 0 ==> |buffer| < 4
    ensures size == 0 <==> |received| < |FrameAll(done)| + 4
  {
    hide FrameAll, FromBE32;
    assert |Rest(received, done)| == |received| - |FrameAll(done)|;
  }

  /** With nothing but allowed payloads sent, a bad header is never met. */
  lemma NoBadHeader(limit: nat, sent: seq<Payload>, received: seq<byte>, done: seq<Payload>)
    requires limit < TWO_TO_THE_32 && Sendable(limit, sent)
    requires received <= FrameAll(sent)
    ensures !AtBadHeader(limit, received, done)
  {
    if AtBadHeader(limit, received, done) {
      NextHeader(sent, received, done, []);
    }
  }

  /** Everything sent has been delivered once it has all arrived and no packet is waiting. */
  lemma DrainedIsEverything(limit: nat, sent: seq<Payload>, done: seq<Payload>, partial: Payload,
                            size: nat, buffer: seq<byte>)
    requires Writable(sent)
    requires At(limit, FrameAll(sent), done, partial, size, buffer)
    requires size == 0 ==> |buffer| < 4
    requires |buffer| < size || size == 0
    ensures done == sent && partial == []
  {
    DeliveredIsPrefix(sent, FrameAll(sent), done);
    var left := sent[|done|..];
    assert sent == done + left;
    FrameAllPlus(done, left);
    assert Rest(FrameAll(sent), done) == FrameAll(left);
    if left != [] {
      NextHeader(sent, FrameAll(sent), done, []);
    }
  }

  /** So a packet that has not been delivered is ready to be read to its end. */
  lemma UndeliveredIsReady(limit: nat, sent: seq<Payload>, done: seq<Payload>, partial: Payload,
                           size: nat, buffer: seq<byte>)
    requires Writable(sent)
    requires At(limit, FrameAll(sent), done, partial, size, buffer)
    requires size == 0 ==> |buffer| < 4
    requires done != sent
    ensures 0 < size <= |buffer|
    ensures |done| < |sent| && |partial| + size == |sent[|done|]|
  {
    hide FrameAll, FromBE32;
    if |buffer| < size || size == 0 {
      DrainedIsEverything(limit, sent, done, partial, size, buffer);
    } else {
      NextHeader(sent, FrameAll(sent), done, []);
    }
  }

  /** Stopping at a bad header means exactly that the next payload sent was not allowed. */
  lemma BadHeaderIsBadPayload(limit: nat, sent: seq<Payload>, received: seq<byte>, done: seq<Payload>)
    requires Writable(sent) && received <= FrameAll(sent)
    requires AtBadHeader(limit, received, done)
    ensures done < sent && !GoodSize(limit, |sent[|done|]|)
  {
    NextHeader(sent, received, done, []);
  }
}

/**
 * The message framing of the PostgreSQL bridge (msg and makeStream in gcdebug-bridge.js): frames as
 * in section 55.7 of the PostgreSQL 16 documentation, cut back out of a byte stream.
 */
module FrameStream {
  import opened Wrappers

  type Byte = x: int | 0 <= x < 256

  /** A framed message: its type byte and its payload. */
  datatype Item = Item(kind: Byte, payload: seq<Byte>)

  // -------------------------------------------------------------------- encoding

  const LENGTH_LIMIT: int := 0x1_0000_0000
  const SHORT_LIMIT: int := 0x100_0000

  function LengthOf(m: Item): nat {
    |m.payload| + 4
  }

  /** The length field can hold it: otherwise writing it throws. */
  predicate Encodable(m: Item) {
    LengthOf(m) < LENGTH_LIMIT
  }

  function LowByte(n: nat): Byte {
    var low: int := n % 256;
    low
  }

  function BigEndian(n: nat): (b: seq<Byte>)
    requires n < LENGTH_LIMIT
    ensures |b| == 4
  {
    [LowByte(n / 0x100_0000), LowByte(n / 0x1_0000), LowByte(n / 256), LowByte(n)]
  }

  function ReadBigEndian(b: seq<Byte>): nat
    requires |b| >= 4
  {
    b[0] as int * 0x100_0000 + b[1] as int * 0x1_0000 + b[2] as int * 256 + b[3] as int
  }

  lemma BigEndianRoundTrip(n: nat)
    requires n < LENGTH_LIMIT
    ensures ReadBigEndian(BigEndian(n)) == n
    ensures BigEndian(n)[0] == 0 <==> n < SHORT_LIMIT
  {
    var a := n / 256;
    var b := n / 0x1_0000;
    var c := n / 0x100_0000;
    assert b == a / 256 && c == b / 256 && c < 256;
    assert n == a * 256 + n % 256 && a == b * 256 + a % 256 && b == c * 256 + b % 256;
  }

  /** msg. */
  function Frame(m: Item): (b: seq<Byte>)
    requires Encodable(m)
    ensures |b| == 1 + LengthOf(m)
  {
    [m.kind] + BigEndian(LengthOf(m)) + m.payload
  }

  predicate AllEncodable(ms: seq<Item>) {
    forall i :: 0 <= i < |ms| ==> Encodable(ms[i])
  }

  predicate AllShort(ms: seq<Item>) {
    forall i :: 0 <= i < |ms| ==> LengthOf(ms[i]) < SHORT_LIMIT
  }

  function Frames(ms: seq<Item>): seq<Byte>
    requires AllEncodable(ms)
  {
    if ms == [] then [] else Frame(ms[0]) + Frames(ms[1..])
  }

  // -------------------------------------------------------------------- splitting

  /** Index of the first zero byte at or after i, or the length. */
  function NulFrom(b: seq<Byte>, i: nat): (k: nat)
    requires i <= |b|
    ensures i <= k <= |b|
    ensures forall j :: i <= j < k ==> b[j] != 0
    ensures k < |b| ==> b[k] == 0
    decreases |b| - i
  {
    if i == |b| || b[i] == 0 then i else NulFrom(b, i + 1)
  }

  datatype Cut = Wait | Take(item: Item, rest: seq<Byte>)

  function Drop(b: seq<Byte>, n: nat): (r: seq<Byte>)
    requires n <= |b|
  {
    b[n..]
  }

  /**
   * One turn of the reading loop. A first length byte other than zero is taken for an old-style
   * error: type byte, text, zero byte. A length below 4 gives an empty payload.
   */
  function Split(b: seq<Byte>): (c: Cut)
    ensures c.Take? ==> |c.rest| < |b|
  {
    if |b| < 5 then Wait
    else
      var len := ReadBigEndian(b[1..5]);
      if b[1] != 0 then
        var end := NulFrom(b, 1);
        Take(Item(b[0], b[1..end]), Drop(b, if end < |b| then end + 1 else end))
      else if |b| < 1 + len then Wait
      else Take(Item(b[0], if len >= 4 then b[5..1 + len] else []), Drop(b, 1 + len))
  }

  lemma {:induction false} NulAfterText(b: seq<Byte>, i: nat, k: nat)
    requires i <= k <= |b| && (forall j :: i <= j < k ==> b[j] != 0) && (k < |b| ==> b[k] == 0)
    ensures NulFrom(b, i) == k
    decreases k - i
  {
    if i < k {
      NulAfterText(b, i + 1, k);
    }
  }

  /** An old-style error, a text that does not begin with a zero byte, is delivered up to its own zero byte, or as it stands without one. */
  lemma OldStyleErrorIsText(kind: Byte, text: seq<Byte>, rest: seq<Byte>)
    requires text != [] && forall j :: 0 <= j < |text| ==> text[j] != 0
    ensures |text| + |rest| >= 3 ==> Split([kind] + text + [0] + rest) == Take(Item(kind, text), rest)
    ensures |text| >= 4 ==> Split([kind] + text) == Take(Item(kind, text), [])
  {
    var b, c := [kind] + text + [0] + rest, [kind] + text;
    assert forall j :: 1 <= j < 1 + |text| ==> b[j] == text[j - 1] && c[j] == text[j - 1];
    NulAfterText(b, 1, 1 + |text|);
    NulAfterText(c, 1, 1 + |text|);
    assert b[1..1 + |text|] == text && b[|text| + 2..] == rest;
    assert c[1..1 + |text|] == text && c[1 + |text|..] == [];
  }

  /** A length that does not even cover itself, below 4, gives an empty message, and the reading goes on right behind the length it states. */
  lemma TooShortLength(kind: Byte, len: nat, rest: seq<Byte>)
    requires len < 4
    ensures var b := [kind] + BigEndian(len) + rest; Split(b) == Take(Item(kind, []), b[1 + len..])
  {
    var b := [kind] + BigEndian(len) + rest;
    assert b[1..5] == BigEndian(len);
    BigEndianRoundTrip(len);
  }

  /** A buffer that holds less than a header, or less than the message its header announces, waits. */
  lemma WaitsIff(b: seq<Byte>)
    ensures Split(b) == Wait <==> |b| < 5 || (b[1] == 0 && |b| < 1 + ReadBigEndian(b[1..5]))
  {
  }

  /** What the loop delivers from a buffer, and the buffer it leaves. */
  datatype Drained = Drained(items: seq<Item>, rest: seq<Byte>)

  function Drain(b: seq<Byte>): Drained
    decreases |b|
  {
    match Split(b)
    case Wait => Drained([], b)
    case Take(item, rest) =>
      var d := Drain(rest);
      Drained([item] + d.items, d.rest)
  }

  /** Everything delivered while the chunks arrive one after the other. */
  function Feed(buf: seq<Byte>, chunks: seq<seq<Byte>>): Drained
    decreases |chunks|
  {
    if chunks == [] then Drained([], buf)
    else
      var d := Drain(buf + chunks[0]);
      var f := Feed(d.rest, chunks[1..]);
      Drained(d.items + f.items, f.rest)
  }

  function Joined(chunks: seq<seq<Byte>>): seq<Byte> {
    if chunks == [] then [] else chunks[0] + Joined(chunks[1..])
  }

  // ------------------------------------------------------------------- round trip

  /** The header of a frame as the splitter reads it. */
  lemma FrameHeader(m: Item, b: seq<Byte>)
    requires Encodable(m) && |b| >= 5 && b[..5] == Frame(m)[..5]
    ensures b[0] == m.kind && ReadBigEndian(b[1..5]) == LengthOf(m) && (b[1] == 0 <==> LengthOf(m) < SHORT_LIMIT)
  {
    BigEndianRoundTrip(LengthOf(m));
    var f, g := Frame(m), BigEndian(LengthOf(m));
    assert b[0] == b[..5][0] && b[1] == b[..5][1];
    assert b[1..5] == b[..5][1..] == f[..5][1..] == g;
  }

  /** A short frame at the head of the stream is cut out whole, as soon as it is there. */
  lemma SplitFrame(m: Item, b: seq<Byte>, tail: seq<Byte>)
    requires Encodable(m) && LengthOf(m) < SHORT_LIMIT && b == Frame(m) + tail
    ensures Split(b) == Take(m, tail)
  {
    assert b[..5] == Frame(m)[..5];
    FrameHeader(m, b);
    assert b[5..1 + LengthOf(m)] == m.payload;
    assert Drop(b, 1 + LengthOf(m)) == tail;
  }

  /** Before it is complete the splitter waits. */
  lemma SplitPartial(m: Item, b: seq<Byte>)
    requires Encodable(m) && LengthOf(m) < SHORT_LIMIT && b <= Frame(m) && |b| < |Frame(m)|
    ensures Split(b) == Wait
  {
    if |b| >= 5 {
      assert b[..5] == Frame(m)[..5];
      FrameHeader(m, b);
    }
  }

  /** The frames' first bytes, cut before the first frame is complete or after it. */
  lemma PrefixOfFrames(b: seq<Byte>, tail: seq<Byte>, ms: seq<Item>)
    requires AllEncodable(ms) && ms != [] && b + tail == Frames(ms)
    ensures |b| < |Frame(ms[0])| ==> b <= Frame(ms[0])
    ensures |b| >= |Frame(ms[0])| ==>
              b == Frame(ms[0]) + b[|Frame(ms[0])|..] && b[|Frame(ms[0])|..] + tail == Frames(ms[1..])
  {
    var f := Frame(ms[0]);
    if |b| < |f| {
      assert b == (b + tail)[..|b|] == f[..|b|];
    } else {
      assert f == (b + tail)[..|f|] == b[..|f|];
      assert b[|f|..] + tail == (b + tail)[|f|..];
    }
  }

  lemma SliceCons(ms: seq<Item>, k: nat)
    requires ms != [] && k < |ms|
    ensures ms[..k + 1] == [ms[0]] + ms[1..][..k] && ms[k + 1..] == ms[1..][k..]
  {
  }

  /** Draining any prefix of the frames of short messages delivers the complete ones and keeps the rest. */
  lemma {:induction false} DrainPrefix(b: seq<Byte>, tail: seq<Byte>, ms: seq<Item>) returns (n: nat)
    requires AllEncodable(ms) && AllShort(ms) && b + tail == Frames(ms)
    ensures n <= |ms| && Drain(b).items == ms[..n] && Drain(b).rest + tail == Frames(ms[n..])
    ensures tail == [] ==> n == |ms|
  {
    n := 0;
    if ms != [] {
      var f := Frame(ms[0]);
      PrefixOfFrames(b, tail, ms);
      if |b| < |f| {
        SplitPartial(ms[0], b);
        assert ms[0..] == ms;
      } else {
        SplitFrame(ms[0], b, b[|f|..]);
        var k := DrainPrefix(b[|f|..], tail, ms[1..]);
        n := k + 1;
        SliceCons(ms, k);
      }
    }
  }

  /** However the frames of short messages are cut into chunks, exactly the messages come out, in order. */
  lemma {:induction false} AnyChunkingDelivers(buf: seq<Byte>, chunks: seq<seq<Byte>>, ms: seq<Item>)
    requires AllEncodable(ms) && AllShort(ms) && buf + Joined(chunks) == Frames(ms)
    requires Split(buf) == Wait
    ensures Feed(buf, chunks) == Drained(ms, [])
    decreases |chunks|
  {
    if chunks == [] {
      assert buf + [] == buf;
      var n := DrainPrefix(buf, [], ms);
      assert Drain(buf).rest + [] == Drain(buf).rest && ms[..|ms|] == ms;
    } else {
      var b, tail := buf + chunks[0], Joined(chunks[1..]);
      assert b + tail == Frames(ms);
      var n := DrainPrefix(b, tail, ms);
      DrainedWaits(b);
      AnyChunkingDelivers(Drain(b).rest, chunks[1..], ms[n..]);
      assert ms == ms[..n] + ms[n..];
    }
  }

  lemma {:induction false} DrainedWaits(b: seq<Byte>)
    ensures Split(Drain(b).rest) == Wait
    decreases |b|
  {
    match Split(b)
    case Wait =>
    case Take(item, rest) => DrainedWaits(rest);
  }

  /** A long message is never delivered from a buffer that holds it whole: its text stops elsewhere. */
  lemma LongFrameIsMisread(m: Item, b: seq<Byte>, tail: seq<Byte>)
    requires Encodable(m) && LengthOf(m) >= SHORT_LIMIT && b == Frame(m) + tail
    ensures Split(b).Take? && Split(b).item != m
  {
    assert b[..5] == Frame(m)[..5];
    FrameHeader(m, b);
    var end := NulFrom(b, 1);
    var text := b[1..end];
    var p := |m.payload|;
    if |text| == p {
      assert b[end] == 0 && b[end] == m.payload[p - 4];
      assert text[p - 4] == b[p - 3];
    }
  }

  lemma {:induction false} LongMessageSpoilsOneChunk(ms: seq<Item>)
    requires AllEncodable(ms) && !AllShort(ms)
    ensures Drain(Frames(ms)).items != ms
  {
    var m, tail := ms[0], Frames(ms[1..]);
    if LengthOf(m) >= SHORT_LIMIT {
      LongFrameIsMisread(m, Frames(ms), tail);
      assert Drain(Frames(ms)).items[0] != ms[0];
    } else {
      SplitFrame(m, Frames(ms), tail);
      LongMessageSpoilsOneChunk(ms[1..]);
      assert Drain(Frames(ms)).items[1..] == Drain(tail).items;
    }
  }

  ghost predicate DeliveredUnderAnyChunking(ms: seq<Item>)
    requires AllEncodable(ms)
  {
    forall chunks :: Joined(chunks) == Frames(ms) ==> Feed([], chunks).items == ms
  }

  /** Under every way of cutting the bytes the messages come back, exactly when every length field is below 2^24. */
  lemma RoundTripIff(ms: seq<Item>)
    requires AllEncodable(ms)
    ensures DeliveredUnderAnyChunking(ms) <==> AllShort(ms)
  {
    if AllShort(ms) {
      forall chunks | Joined(chunks) == Frames(ms)
        ensures Feed([], chunks).items == ms
      {
        assert [] + Joined(chunks) == Joined(chunks);
        AnyChunkingDelivers([], chunks, ms);
      }
    } else {
      var chunks := [Frames(ms)];
      assert chunks[1..] == [];
      assert Joined(chunks) == Frames(ms) by {
        assert Frames(ms) + [] == Frames(ms);
      }
      assert [] + Frames(ms) == Frames(ms);
      assert Feed([], chunks).items == Drain(Frames(ms)).items + [];
      LongMessageSpoilsOneChunk(ms);
    }
  }

  // ------------------------------------------------------------------ the reader

  /** A pending next(): expired once its timer has rejected it. */
  datatype Waiter = Waiter(id: nat, expired: bool)

  /** What became of a message: handed to a read, or swallowed by one that had already timed out. */
  datatype Fate = Handed(id: nat, item: Item) | Swallowed(id: nat, item: Item)

  function FateOf(w: Waiter, item: Item): Fate {
    if w.expired then Swallowed(w.id, item) else Handed(w.id, item)
  }

  function ItemsOf(fates: seq<Fate>): seq<Item> {
    if fates == [] then [] else ItemsOf(fates[..|fates| - 1]) + [fates[|fates| - 1].item]
  }

  lemma ItemsOfSnoc(fates: seq<Fate>, f: Fate)
    ensures ItemsOf(fates + [f]) == ItemsOf(fates) + [f.item]
  {
    assert (fates + [f])[..|fates|] == fates;
  }

  class Stream {
    var buf: seq<Byte>
    var inbox: seq<Item>
    var waiters: seq<Waiter>
    var closed: bool
    var fates: seq<Fate>
    ghost var delivered: seq<Item>

    /** Every delivered message met its fate or is in the inbox, in order; messages and reads never wait for each other. */
    ghost predicate Balanced()
      reads `inbox, `waiters, `fates, `delivered
    {
      ItemsOf(fates) + inbox == delivered && (inbox == [] || waiters == [])
    }

    ghost predicate Valid()
      reads this
    {
      Balanced() && Split(buf) == Wait
    }

    constructor ()
      ensures Valid() && buf == [] && delivered == [] && fates == [] && waiters == [] && !closed
    {
      buf, inbox, waiters, closed, fates, delivered := [], [], [], false, [], [];
    }

    method Deliver(item: Item)
      requires Balanced()
      modifies this`inbox, this`waiters, this`fates, this`delivered
      ensures Balanced() && delivered == old(delivered) + [item]
      ensures waiters == Left(old(waiters), 1)
      ensures fates == old(fates) + HandedOut(old(waiters), [item])
    {
      delivered := delivered + [item];
      if |waiters| > 0 {
        var w := waiters[0];
        waiters := waiters[1..];
        ItemsOfSnoc(fates, FateOf(w, item));
        fates := fates + [FateOf(w, item)];
      } else {
        inbox := inbox + [item];
      }
    }

    /** Cut one message off the buffer, if it holds one. */
    method CutOne() returns (item: Option<Item>)
      modifies this`buf
      ensures match Split(old(buf))
              case Wait => item == None && buf == old(buf)
              case Take(i, rest) => item == Some(i) && buf == rest
    {
      if |buf| < 5 {
        return None;
      }
      var len := ReadBigEndian(buf[1..5]);
      if buf[1] != 0 || |buf| < 1 + len {
        LengthOfHeader(buf);
        if buf[1] != 0 && len > 0x10_0000 {
          var end := NulFrom(buf, 1);
          item := Some(Item(buf[0], buf[1..end]));
          buf := buf[end + (if end == |buf| then 0 else 1)..];
          return;
        }
        return None;
      }
      item := Some(Item(buf[0], if len >= 4 then buf[5..1 + len] else []));
      buf := buf[1 + len..];
    }

    /** The books since a state with these pending reads, fates and deliveries, after delivering done. */
    ghost predicate Accounted(ws: seq<Waiter>, was: seq<Fate>, before: seq<Item>, done: seq<Item>)
      reads `inbox, `waiters, `fates, `delivered
    {
      && Balanced()
      && delivered == before + done
      && waiters == Left(ws, |done|)
      && fates == was + HandedOut(ws, done)
    }

    method DeliverNext(item: Item, ghost ws: seq<Waiter>, ghost was: seq<Fate>, ghost before: seq<Item>, ghost done: seq<Item>)
      requires Accounted(ws, was, before, done)
      modifies this`inbox, this`waiters, this`fates, this`delivered
      ensures Accounted(ws, was, before, done + [item])
    {
      HandedOutNext(was, ws, done, item);
      assert delivered + [item] == before + (done + [item]);
      Deliver(item);
    }

    /** The data callback: what the buffer now holds goes out in order, to the oldest pending reads first. */
    method OnData(chunk: seq<Byte>)
      requires Valid()
      modifies this`buf, this`inbox, this`waiters, this`fates, this`delivered
      ensures Valid()
      ensures buf == Drain(old(buf) + chunk).rest
      ensures delivered == old(delivered) + Drain(old(buf) + chunk).items
      ensures fates == old(fates) + HandedOut(old(waiters), Drain(old(buf) + chunk).items)
    {
      buf := if |buf| == 0 then chunk else buf + chunk;
      assert buf == old(buf) + chunk;
      ghost var all, done: seq<Item> := Drain(buf), [];
      assert done + all.items == all.items;
      while true
        invariant Accounted(old(waiters), old(fates), old(delivered), done)
        invariant all == Prepend(done, Drain(buf))
        decreases |buf|
      {
        ghost var before := buf;
        var item := CutOne();
        if item.None? {
          assert Drain(buf).items == [] && done + [] == done;
          break;
        }
        PrependOne(done, before, item.value, buf);
        DeliverNext(item.value, old(waiters), old(fates), old(delivered), done);
        done := done + [item.value];
      }
    }

    /** A read: the oldest undelivered message, or a place in the line; rejected once the stream is closed. */
    method Next(id: nat) returns (r: Option<Item>, rejected: bool)
      requires Valid()
      modifies this`inbox, this`waiters, this`fates
      ensures Valid() && delivered == old(delivered)
      ensures old(inbox) != [] ==> r == Some(old(inbox)[0]) && !rejected && fates == old(fates) + [Handed(id, old(inbox)[0])]
                                   && inbox == old(inbox)[1..] && waiters == old(waiters)
      ensures old(inbox) == [] ==> r == None && fates == old(fates) && inbox == [] && rejected == closed
      ensures old(inbox) == [] ==> waiters == if closed then old(waiters) else old(waiters) + [Waiter(id, false)]
    {
      if |inbox| > 0 {
        var item := inbox[0];
        ItemsOfSnoc(fates, Handed(id, item));
        fates := fates + [Handed(id, item)];
        inbox := inbox[1..];
        return Some(item), false;
      }
      if closed {
        return None, true;
      }
      waiters := waiters + [Waiter(id, false)];
      return None, false;
    }

    /** A read's timer fires: the read is rejected but keeps its place in the line. */
    method Expire(k: nat)
      requires Valid() && k < |waiters|
      modifies this`waiters
      ensures Valid() && waiters == old(waiters)[k := old(waiters)[k].(expired := true)]
    {
      waiters := waiters[k := waiters[k].(expired := true)];
    }

    /** An error or the end of the connection rejects every pending read; messages already read stay available. */
    method Close()
      requires Valid()
      modifies this`closed, this`waiters
      ensures Valid() && closed && (old(closed) ==> waiters == old(waiters)) && (!old(closed) ==> waiters == [])
    {
      if !closed {
        closed := true;
        waiters := [];
      }
    }
  }

  /** Four bytes whose first is not zero spell at least 2^24. */
  lemma LengthOfHeader(b: seq<Byte>)
    requires |b| >= 5
    ensures b[1] != 0 ==> ReadBigEndian(b[1..5]) >= SHORT_LIMIT
  {
  }

  /** The oldest messages go to the oldest reads, one each. */
  ghost function HandedOut(ws: seq<Waiter>, items: seq<Item>): seq<Fate> {
    var n := if |ws| < |items| then |ws| else |items|;
    seq(n, i requires 0 <= i < n => FateOf(ws[i], items[i]))
  }

  /** The reads still pending after n messages. */
  ghost function Left(ws: seq<Waiter>, n: nat): seq<Waiter> {
    if n < |ws| then ws[n..] else []
  }

  lemma HandedOutNext(fates: seq<Fate>, ws: seq<Waiter>, items: seq<Item>, item: Item)
    ensures fates + HandedOut(ws, items + [item]) == fates + HandedOut(ws, items) + HandedOut(Left(ws, |items|), [item])
    ensures Left(Left(ws, |items|), 1) == Left(ws, |items| + 1)
  {
    assert HandedOut(ws, items + [item]) == HandedOut(ws, items) + HandedOut(Left(ws, |items|), [item]);
  }

  ghost function Prepend(done: seq<Item>, d: Drained): Drained {
    Drained(done + d.items, d.rest)
  }

  lemma PrependOne(done: seq<Item>, before: seq<Byte>, item: Item, rest: seq<Byte>)
    requires Split(before) == Take(item, rest)
    ensures Prepend(done, Drain(before)) == Prepend(done + [item], Drain(rest))
  {
    assert done + ([item] + Drain(rest).items) == done + [item] + Drain(rest).items;
  }

  /** A message is lost to a pending read exactly when a timed-out read still stands in line before the messages run out. */
  lemma LostIffExpiredReadInLine(ws: seq<Waiter>, items: seq<Item>)
    ensures (exists f :: f in HandedOut(ws, items) && f.Swallowed?)
            <==> exists i :: 0 <= i < |ws| && i < |items| && ws[i].expired
  {
    var h := HandedOut(ws, items);
    if i :| 0 <= i < |ws| && i < |items| && ws[i].expired {
      assert h[i] in h;
    }
  }
}

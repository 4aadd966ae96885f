/** The outbound half of the adapter: the queue handlers post to, and the
    body of `writer_thread`, which stamps each protocol message with the
    next sequence number and writes it as a Base Protocol frame. */
module Transport {
  import opened Common
  import opened Schema
  import opened Framing

  /** What can be posted on the write queue: a protocol message (it has
      `to_json`), or an already encoded byte string or text. */
  datatype Item = Protocol(message: Message) | Raw(bytes: seq<byte>) | Text(text: string)

  /** The queue between the handlers and the writer. */
  class WriteQueue {
    var items: seq<Item>

    constructor ()
      ensures items == []
    {
      items := [];
    }

    /** `queue.put(item)` */
    method Put(item: Item)
      modifies this
      ensures items == old(items) + [item]
    {
      items := items + [item];
    }

    /** `queue.get()` on a queue that holds something. */
    method Get() returns (item: Item)
      requires items != []
      modifies this
      ensures item == old(items)[0] && items == old(items)[1..]
    {
      item := items[0];
      items := items[1..];
    }
  }

  // ---------------------------------------------------------------------
  // Text to bytes
  // ---------------------------------------------------------------------

  /** The UTF-8 encoding of one character: one byte below 0x80, two below
      0x800, three below 0x10000, four above. */
  function Utf8Char(c: char): (bs: seq<byte>)
    ensures 1 <= |bs| <= 4
    ensures |bs| == 1 <==> c as int < 0x80
    ensures |bs| == 2 <==> 0x80 <= c as int < 0x800
    ensures |bs| == 3 <==> 0x800 <= c as int < 0x1_0000
    ensures |bs| == 1 ==> bs[0] as int == c as int
    ensures forall i :: 1 <= i < |bs| ==> 0x80 <= bs[i] < 0xC0
  {
    var v := c as int;
    if v < 0x80 then [v as byte]
    else if v < 0x800 then [(0xC0 + v / 0x40) as byte, (0x80 + v % 0x40) as byte]
    else if v < 0x1_0000 then
      [(0xE0 + v / 0x1000) as byte, (0x80 + v / 0x40 % 0x40) as byte, (0x80 + v % 0x40) as byte]
    else
      [(0xF0 + v / 0x4_0000) as byte, (0x80 + v / 0x1000 % 0x40) as byte,
       (0x80 + v / 0x40 % 0x40) as byte, (0x80 + v % 0x40) as byte]
  }

  /** `text.encode('utf-8')` */
  function Utf8(t: string): (bs: seq<byte>)
    ensures |t| <= |bs| <= 4 * |t|
  {
    if t == [] then [] else Utf8Char(t[0]) + Utf8(t[1..])
  }

  /** On ASCII text UTF-8 is the identity: one byte per character. */
  lemma {:induction false} Utf8OfAscii(t: string)
    requires IsAsciiText(t)
    ensures Utf8(t) == Ascii(t)
  {
    if t != [] {
      var tail := t[1..];
      assert IsAsciiText(tail) by {
        assert forall i :: 0 <= i < |tail| ==> tail[i] == t[i + 1];
      }
      var head := Utf8Char(t[0]);
      assert head == Ascii([t[0]]);
      Utf8OfAscii(tail);
      AsciiAppend([t[0]], tail);
      assert [t[0]] + tail == t;
    }
  }

  /** How many bytes a character takes whose encoding starts with `b`;
      0 when no character's encoding starts with it (a continuation byte,
      an overlong lead 0xC0 or 0xC1, or a lead beyond U+10FFFF). */
  function LeadLength(b: byte): (n: nat)
    ensures n <= 4
  {
    if b < 0x80 then 1
    else if b < 0xC2 then 0
    else if b < 0xE0 then 2
    else if b < 0xF0 then 3
    else if b < 0xF5 then 4
    else 0
  }

  /** The code point that the payload bits of a lead byte and its
      continuation bytes spell. */
  function CodePoint(bs: seq<byte>): int
    requires 1 <= |bs| <= 4
  {
    if |bs| == 1 then bs[0] as int
    else if |bs| == 2 then (bs[0] as int - 0xC0) * 0x40 + (bs[1] as int - 0x80)
    else if |bs| == 3 then
      (bs[0] as int - 0xE0) * 0x1000 + (bs[1] as int - 0x80) * 0x40 + (bs[2] as int - 0x80)
    else
      (bs[0] as int - 0xF0) * 0x4_0000 + (bs[1] as int - 0x80) * 0x1000
        + (bs[2] as int - 0x80) * 0x40 + (bs[3] as int - 0x80)
  }

  /** The smallest code point that needs `n` bytes: a smaller one spelled
      with `n` bytes is an overlong form, which the decoder rejects. */
  function MinCodePoint(n: nat): int {
    if n <= 1 then 0 else if n == 2 then 0x80 else if n == 3 then 0x800 else 0x1_0000
  }

  /** The character one complete encoding spells, or None when it is not
      the shortest encoding of a character. */
  function Utf8DecodeChar(bs: seq<byte>): (r: Option<char>)
    requires 1 <= |bs| <= 4
    ensures r.Some? ==> LeadLength(bs[0]) == |bs| && r.value as int == CodePoint(bs)
  {
    var v := CodePoint(bs);
    if LeadLength(bs[0]) != |bs| then None
    else if exists i :: 1 <= i < |bs| && !(0x80 <= bs[i] < 0xC0) then None
    else if v < MinCodePoint(|bs|) || 0x11_0000 <= v || 0xD800 <= v < 0xE000 then None
    else Some(v as char)
  }

  /** `body.decode('utf-8')`: the text the bytes spell, or None when they
      are not valid UTF-8. */
  function Utf8Decode(bs: seq<byte>): (r: Option<string>)
    ensures r.Some? ==> |r.value| <= |bs|
    decreases |bs|
  {
    if bs == [] then Some([])
    else
      var n := LeadLength(bs[0]);
      if n == 0 || |bs| < n then None
      else
        match Utf8DecodeChar(bs[..n])
        case None => None
        case Some(c) =>
          match Utf8Decode(bs[n..])
          case None => None
          case Some(t) => Some([c] + t)
  }

  /** Decoding reads back every text the writer encodes. */
  lemma {:induction false} Utf8RoundTrip(t: string)
    ensures Utf8Decode(Utf8(t)) == Some(t)
  {
    if t != [] {
      var bs := Utf8Char(t[0]);
      var all := bs + Utf8(t[1..]);
      Utf8CharDecodes(t[0]);
      assert all[0] == bs[0];
      assert all[..|bs|] == bs;
      assert all[|bs|..] == Utf8(t[1..]);
      Utf8RoundTrip(t[1..]);
      assert [t[0]] + t[1..] == t;
    }
  }

  /** A character's encoding starts with a lead byte announcing its length
      and decodes back to the character. */
  lemma Utf8CharDecodes(c: char)
    ensures var bs := Utf8Char(c); LeadLength(bs[0]) == |bs| && Utf8DecodeChar(bs) == Some(c)
  {
    var v := c as int;
    if v < 0x80 {
    } else if v < 0x800 {
      TwoByteBits(v);
    } else if v < 0x1_0000 {
      ThreeByteBits(v);
    } else {
      FourByteBits(v);
    }
  }

  lemma TwoByteBits(v: int)
    requires 0x80 <= v < 0x800
    ensures var hi, lo := v / 0x40, v % 0x40;
      2 <= hi < 0x20 && 0 <= lo < 0x40 && v == hi * 0x40 + lo
  {
  }

  lemma ThreeByteBits(v: int)
    requires 0x800 <= v < 0x1_0000
    ensures var hi, mid, lo := v / 0x1000, v / 0x40 % 0x40, v % 0x40;
      0 <= hi < 0x10 && 0 <= mid < 0x40 && 0 <= lo < 0x40 && v == hi * 0x1000 + mid * 0x40 + lo
  {
  }

  lemma FourByteBits(v: int)
    requires 0x1_0000 <= v < 0x11_0000
    ensures var hi, b1, b2, lo := v / 0x4_0000, v / 0x1000 % 0x40, v / 0x40 % 0x40, v % 0x40;
      0 <= hi < 5 && 0 <= b1 < 0x40 && 0 <= b2 < 0x40 && 0 <= lo < 0x40 &&
      v == hi * 0x4_0000 + b1 * 0x1000 + b2 * 0x40 + lo
  {
    var q := v / 0x40;
    ShiftSix(v);
    ShiftSix(q);
    ShiftSix(q / 0x40);
    NestedShift(v);
    NestedShift(q);
  }

  lemma ShiftSix(v: nat)
    ensures v == v / 0x40 * 0x40 + v % 0x40 && 0 <= v % 0x40 < 0x40
  {
  }

  lemma NestedShift(v: nat)
    ensures v / 0x40 / 0x40 == v / 0x1000
  {
  }

  // ---------------------------------------------------------------------
  // What the writer emits
  // ---------------------------------------------------------------------

  /** How many protocol messages the items hold: each takes one number. */
  function ProtocolCount(items: seq<Item>): (n: nat)
    ensures n <= |items|
  {
    if items == [] then 0
    else ProtocolCount(items[..|items| - 1]) + (if items[|items| - 1].Protocol? then 1 else 0)
  }

  /** The body the writer produces for one item when the counter stands at
      `n`: a protocol message is stamped with `n` and serialized, which may
      fail (None); bytes go out as they are; text is UTF-8 encoded. */
  function ItemBody(item: Item, n: int, serialize: Message -> Option<seq<byte>>): Option<seq<byte>> {
    match item
    case Protocol(m) => serialize(m.WithSeq(n))
    case Raw(b) => Some(b)
    case Text(t) => Some(Utf8(t))
  }

  /** The bytes the writer emits for one item when the counter stands at `n`. */
  function Emitted(item: Item, n: int, serialize: Message -> Option<seq<byte>>): seq<byte> {
    match ItemBody(item, n, serialize)
    case None => []
    case Some(b) => Frame(b)
  }

  /** What one item adds to the counter: one number per protocol message. */
  function Step(item: Item): nat {
    if item.Protocol? then 1 else 0
  }

  /** The bodies written for `items`, in order, with the counter standing
      at `n` when the first of them is taken. */
  function Bodies(items: seq<Item>, n: int, serialize: Message -> Option<seq<byte>>): (bs: seq<seq<byte>>)
    ensures |bs| <= |items|
    decreases |items|
  {
    if items == [] then []
    else Listed(ItemBody(items[0], n, serialize)) + Bodies(items[1..], n + Step(items[0]), serialize)
  }

  /** The body an item produced, as a list of zero or one bodies. */
  function Listed(body: Option<seq<byte>>): (bs: seq<seq<byte>>)
    ensures |bs| <= 1
  {
    match body
    case None => []
    case Some(b) => [b]
  }

  /** The frames of the given bodies, one after another. */
  function Frames(bodies: seq<seq<byte>>): seq<byte>
    decreases |bodies|
  {
    if bodies == [] then [] else Frame(bodies[0]) + Frames(bodies[1..])
  }

  /** The bytes on the output stream after the writer handled `items` with
      the counter standing at `n`: what each item emitted, in queue order. */
  function Output(items: seq<Item>, n: int, serialize: Message -> Option<seq<byte>>): seq<byte>
    decreases |items|
  {
    if items == [] then []
    else Emitted(items[0], n, serialize) + Output(items[1..], n + Step(items[0]), serialize)
  }

  /** The writer side of `writer_thread`: the `_next_seq` counter and the
      output stream. */
  class Writer {
    var nextSeq: nat
    var written: seq<byte>

    constructor ()
      ensures nextSeq == 0 && written == []
    {
      nextSeq := 0;
      written := [];
    }

    /** `writer_thread` until the queue is empty: every queued item is taken
        in order, every protocol message takes the next number whether or
        not it serializes, and every item that has a body goes out framed. */
    method Drain(queue: WriteQueue, serialize: Message -> Option<seq<byte>>)
      modifies this, queue
      ensures queue.items == []
      ensures written == old(written) + Output(old(queue.items), old(nextSeq), serialize)
      ensures nextSeq == old(nextSeq) + ProtocolCount(old(queue.items))
    {
      ghost var all := queue.items;
      ghost var start := nextSeq;
      ghost var before := written;
      while queue.items != []
        invariant Drained(before, all, start, written, queue.items, nextSeq, serialize)
        invariant start + ProtocolCount(all) == nextSeq + ProtocolCount(queue.items)
        decreases |queue.items|
      {
        ghost var rest := queue.items;
        ghost var written0 := written;
        ghost var n := nextSeq;
        var item := queue.Get();
        Handle(item, serialize);
        DrainStep(before, all, start, written0, rest, n, written, queue.items, nextSeq, serialize);
        ProtocolCountFront(rest);
      }
    }

    /** One pass of the loop of `writer_thread`, for a dequeued item. */
    method Handle(item: Item, serialize: Message -> Option<seq<byte>>)
      modifies this
      ensures nextSeq == old(nextSeq) + Step(item)
      ensures written == old(written) + Emitted(item, old(nextSeq), serialize)
    {
      var body: Option<seq<byte>>;
      match item {
        case Protocol(m) =>
          var n := nextSeq;
          nextSeq := nextSeq + 1;
          body := serialize(m.WithSeq(n));
        case Raw(b) =>
          body := Some(b);
        case Text(t) =>
          body := Some(Utf8(t));
      }
      if body.Some? {
        WriteFrame(body.value);
      }
    }

    /** The header line, the blank line, then the body. */
    method WriteFrame(body: seq<byte>)
      modifies this
      ensures written == old(written) + Frame(body)
      ensures nextSeq == old(nextSeq)
    {
      written := written + Ascii(HeaderText(|body|)) + [CR, LF, CR, LF];
      written := written + body;
    }
  }

  /** The loop invariant of `Drain`: what was written before plus the
      output of all the items is what is written now plus the output of the
      items still queued, numbered from the counter's current value. */
  predicate Drained(before: seq<byte>, all: seq<Item>, start: int, written: seq<byte>, items: seq<Item>, n: int,
                    serialize: Message -> Option<seq<byte>>)
  {
    before + Output(all, start, serialize) == written + Output(items, n, serialize)
  }

  /** Handling the first queued item moves its output from what is still to
      come to what was written. */
  lemma DrainStep(before: seq<byte>, all: seq<Item>, start: int, written: seq<byte>, items: seq<Item>, n: int,
                  after: seq<byte>, left: seq<Item>, next: int, serialize: Message -> Option<seq<byte>>)
    requires items != []
    requires Drained(before, all, start, written, items, n, serialize)
    requires after == written + Emitted(items[0], n, serialize)
    requires left == items[1..] && next == n + Step(items[0])
    ensures Drained(before, all, start, after, left, next, serialize)
  {
    ConcatAssoc(written, Emitted(items[0], n, serialize), Output(items[1..], n + Step(items[0]), serialize));
  }

  /** Kept apart so that regrouping the output is proved without the facts
      about `Output` in scope. */
  lemma ConcatAssoc(a: seq<byte>, b: seq<byte>, c: seq<byte>)
    ensures a + b + c == a + (b + c)
  {
  }

  /** The first item takes a number exactly when it is a protocol message. */
  lemma ProtocolCountFront(items: seq<Item>)
    requires items != []
    ensures ProtocolCount(items) == Step(items[0]) + ProtocolCount(items[1..])
  {
    assert [items[0]] + items[1..] == items;
    ProtocolCountAppend([items[0]], items[1..]);
    assert [items[0]][..0] == [];
  }

  /** The output is the frames of the bodies written, one after another. */
  lemma {:induction false} OutputFrames(items: seq<Item>, n: int, serialize: Message -> Option<seq<byte>>)
    ensures Output(items, n, serialize) == Frames(Bodies(items, n, serialize))
    decreases |items|
  {
    if items != [] {
      var next := n + Step(items[0]);
      OutputFrames(items[1..], next, serialize);
      BodiesFront(items, n, serialize);
      FramesListed(ItemBody(items[0], n, serialize), Bodies(items[1..], next, serialize));
    }
  }

  /** The frames of one item's bodies followed by others are what the item
      emitted followed by the frames of the others. */
  lemma FramesListed(body: Option<seq<byte>>, bs: seq<seq<byte>>)
    ensures Frames(Listed(body) + bs) == (if body.Some? then Frame(body.value) else []) + Frames(bs)
  {
    var all := Listed(body) + bs;
    if body.Some? {
      assert all[0] == body.value && all[1..] == bs;
    } else {
      assert all == bs;
    }
  }

  // ---------------------------------------------------------------------
  // Sequence numbers
  // ---------------------------------------------------------------------

  /** The number the item at `i` is stamped with, if it is a message. */
  function SeqAt(items: seq<Item>, i: nat, start: nat): nat
    requires i <= |items|
  {
    start + ProtocolCount(items[..i])
  }

  lemma {:induction false} ProtocolCountAppend(xs: seq<Item>, ys: seq<Item>)
    ensures ProtocolCount(xs + ys) == ProtocolCount(xs) + ProtocolCount(ys)
    decreases |ys|
  {
    if ys == [] {
      assert xs + ys == xs;
    } else {
      var init := ys[..|ys| - 1];
      assert (xs + ys)[..|xs + ys| - 1] == xs + init;
      ProtocolCountAppend(xs, init);
    }
  }

  /** Messages are numbered in dequeue order, one apart: between two
      messages, the later one's number exceeds the earlier one's by exactly
      how many messages were taken in between, counting the earlier one. */
  lemma Numbering(items: seq<Item>, i: nat, j: nat, start: nat)
    requires i < j <= |items| && items[i].Protocol?
    ensures SeqAt(items, j, start) == SeqAt(items, i, start) + ProtocolCount(items[i..j])
    ensures SeqAt(items, i, start) < SeqAt(items, j, start)
  {
    assert items[..j] == items[..i] + items[i..j];
    ProtocolCountAppend(items[..i], items[i..j]);
    assert items[i..j] == [items[i]] + items[i + 1..j];
    ProtocolCountAppend([items[i]], items[i + 1..j]);
    assert ProtocolCount([items[i]]) == 1 by {
      assert [items[i]][..0] == [];
    }
  }

  /** The numbers carried by the messages that were actually written. */
  function WrittenSeqs(items: seq<Item>, start: nat, serialize: Message -> Option<seq<byte>>): seq<nat>
  {
    if items == [] then []
    else
      var init := items[..|items| - 1];
      var n := start + ProtocolCount(init);
      var last := items[|items| - 1];
      if last.Protocol? && serialize(last.message.WithSeq(n)).Some? then WrittenSeqs(init, start, serialize) + [n]
      else WrittenSeqs(init, start, serialize)
  }

  /** The written numbers increase strictly, and lie among the numbers
      handed out. */
  lemma {:induction false} WrittenSeqsOrdered(items: seq<Item>, start: nat, serialize: Message -> Option<seq<byte>>)
    ensures var ns := WrittenSeqs(items, start, serialize);
      && (forall k :: 0 <= k < |ns| ==> start <= ns[k] < start + ProtocolCount(items))
      && (forall k, l :: 0 <= k < l < |ns| ==> ns[k] < ns[l])
    decreases |items|
  {
    if items != [] {
      var last := |items| - 1;
      var init := items[..last];
      WrittenSeqsOrdered(init, start, serialize);
      WrittenSeqsLast(items, start, serialize);
      var before := WrittenSeqs(init, start, serialize);
      var ns := WrittenSeqs(items, start, serialize);
      assert ProtocolCount(items) == ProtocolCount(init) + Step(items[last]);
      if WrittenAt(items, last, start, serialize) {
        assert ns == before + [start + ProtocolCount(init)];
        forall k | 0 <= k < |ns| ensures start <= ns[k] < start + ProtocolCount(items) {
          if k < |before| {
            assert ns[k] == before[k];
          }
        }
        forall k, l | 0 <= k < l < |ns| ensures ns[k] < ns[l] {
          assert ns[k] == before[k];
          if l < |before| {
            assert ns[l] == before[l];
          }
        }
      } else {
        assert ns == before;
      }
    }
  }

  /** Every protocol message serializes once stamped. */
  predicate AllSerialize(items: seq<Item>, start: nat, serialize: Message -> Option<seq<byte>>) {
    forall i :: 0 <= i < |items| && items[i].Protocol? ==>
      serialize(items[i].message.WithSeq(SeqAt(items, i, start))).Some?
  }

  /** When nothing fails to serialize, the written numbers are exactly
      start, start+1, ... with no gap. */
  lemma {:induction false} NoGaps(items: seq<Item>, start: nat, serialize: Message -> Option<seq<byte>>)
    requires AllSerialize(items, start, serialize)
    ensures |WrittenSeqs(items, start, serialize)| == ProtocolCount(items)
    ensures forall k :: 0 <= k < ProtocolCount(items) ==> WrittenSeqs(items, start, serialize)[k] == start + k
  {
    if items != [] {
      var init := items[..|items| - 1];
      assert AllSerialize(init, start, serialize) by {
        forall i | 0 <= i < |init| && init[i].Protocol?
          ensures serialize(init[i].message.WithSeq(SeqAt(init, i, start))).Some?
        {
          assert init[..i] == items[..i];
          assert init[i] == items[i];
        }
      }
      NoGaps(init, start, serialize);
    }
  }

  /** A message whose serialization fails still uses up its number: no
      written message carries it. */
  lemma {:induction false} FailedLeavesGap(items: seq<Item>, start: nat, serialize: Message -> Option<seq<byte>>, i: nat)
    requires i < |items| && items[i].Protocol?
    requires serialize(items[i].message.WithSeq(SeqAt(items, i, start))).None?
    ensures SeqAt(items, i, start) !in WrittenSeqs(items, start, serialize)
    decreases |items|
  {
    var init := items[..|items| - 1];
    var n := start + ProtocolCount(init);
    if i < |items| - 1 {
      assert init[..i] == items[..i];
      assert init[i] == items[i];
      FailedLeavesGap(init, start, serialize, i);
      Numbering(items, i, |items| - 1, start);
      assert items[..|items| - 1] == init;
    } else {
      assert items[..i] == init;
      WrittenSeqsOrdered(init, start, serialize);
      WrittenSeqsLast(items, start, serialize);
      assert WrittenSeqs(items, start, serialize) == WrittenSeqs(init, start, serialize);
    }
  }

  /** Handling `xs` and then `ys` writes the bodies of `xs`, then those of
      `ys` with the counter `k` advanced by one per message in `xs`. */
  lemma {:induction false} BodiesAppend(xs: seq<Item>, ys: seq<Item>, n: int, k: int, serialize: Message -> Option<seq<byte>>)
    requires k == n + ProtocolCount(xs)
    ensures Bodies(xs + ys, n, serialize) == Bodies(xs, n, serialize) + Bodies(ys, k, serialize)
    decreases |xs|
  {
    if xs == [] {
      assert xs + ys == ys;
      assert Bodies(xs, n, serialize) == [] && ProtocolCount(xs) == 0;
      assert [] + Bodies(ys, n, serialize) == Bodies(ys, n, serialize);
    } else {
      var m := n + Step(xs[0]);
      AppendFront(xs, ys);
      BodiesFront(xs + ys, n, serialize);
      BodiesFront(xs, n, serialize);
      ProtocolCountFront(xs);
      BodiesAppend(xs[1..], ys, m, k, serialize);
      PrependSplit(Bodies(xs + ys, n, serialize), Listed(ItemBody(xs[0], n, serialize)),
                   Bodies(xs[1..] + ys, m, serialize), Bodies(xs[1..], m, serialize), Bodies(ys, k, serialize));
    }
  }

  /** The first item's body, then those of the rest. */
  lemma BodiesFront(items: seq<Item>, n: int, serialize: Message -> Option<seq<byte>>)
    requires items != []
    ensures Bodies(items, n, serialize)
         == Listed(ItemBody(items[0], n, serialize)) + Bodies(items[1..], n + Step(items[0]), serialize)
  {
  }

  lemma BodiesCons(item: Item, after: seq<Item>, n: int, serialize: Message -> Option<seq<byte>>)
    ensures Bodies([item] + after, n, serialize)
         == Listed(ItemBody(item, n, serialize)) + Bodies(after, n + Step(item), serialize)
  {
    AppendFront([item], after);
  }

  lemma AppendFront(xs: seq<Item>, ys: seq<Item>)
    requires xs != []
    ensures (xs + ys)[0] == xs[0] && (xs + ys)[1..] == xs[1..] + ys
  {
  }

  lemma PrependSplit(all: seq<seq<byte>>, head: seq<seq<byte>>, tail: seq<seq<byte>>,
                     front: seq<seq<byte>>, back: seq<seq<byte>>)
    requires all == head + tail && tail == front + back
    ensures all == (head + front) + back
  {
  }

  /** The body item `i` contributes, if any: a message is stamped with
      `SeqAt(items, i, start)` before it is serialized. */
  function BodyAt(items: seq<Item>, i: nat, start: nat, serialize: Message -> Option<seq<byte>>): seq<seq<byte>>
    requires i < |items|
  {
    Listed(ItemBody(items[i], SeqAt(items, i, start), serialize))
  }

  /** What the writer emits for item `i` sits between what the items before
      it and the items after it emit, and a message there carries the number
      `SeqAt(items, i, start)`. */
  lemma StampedAt(items: seq<Item>, i: nat, start: nat, serialize: Message -> Option<seq<byte>>)
    requires i < |items|
    ensures Bodies(items, start, serialize)
         == Bodies(items[..i], start, serialize) + BodyAt(items, i, start, serialize)
            + Bodies(items[i + 1..], SeqAt(items, i + 1, start), serialize)
    ensures items[i].Protocol? ==>
              BodyAt(items, i, start, serialize)
                == Listed(serialize(items[i].message.WithSeq(SeqAt(items, i, start))))
  {
    var rest := [items[i]] + items[i + 1..];
    BodiesBefore(items, i, start, serialize);
    BodiesFrom(items, i, start, serialize);
    PrependSplit(Bodies(items, start, serialize), Bodies(items[..i], start, serialize),
                 Bodies(rest, SeqAt(items, i, start), serialize), BodyAt(items, i, start, serialize),
                 Bodies(items[i + 1..], SeqAt(items, i + 1, start), serialize));
  }

  /** The bodies of the items before `i`, then those from `i` on. */
  lemma BodiesBefore(items: seq<Item>, i: nat, start: nat, serialize: Message -> Option<seq<byte>>)
    requires i < |items|
    ensures Bodies(items, start, serialize)
         == Bodies(items[..i], start, serialize) + Bodies([items[i]] + items[i + 1..], SeqAt(items, i, start), serialize)
  {
    assert items[..i] + ([items[i]] + items[i + 1..]) == items;
    BodiesAppend(items[..i], [items[i]] + items[i + 1..], start, SeqAt(items, i, start), serialize);
  }

  /** The bodies from `i` on: that of item `i`, then those after it. */
  lemma BodiesFrom(items: seq<Item>, i: nat, start: nat, serialize: Message -> Option<seq<byte>>)
    requires i < |items|
    ensures Bodies([items[i]] + items[i + 1..], SeqAt(items, i, start), serialize)
         == BodyAt(items, i, start, serialize) + Bodies(items[i + 1..], SeqAt(items, i + 1, start), serialize)
  {
    BodiesCons(items[i], items[i + 1..], SeqAt(items, i, start), serialize);
    SeqAtNext(items, i, start);
  }

  /** The item after `i` is stamped one higher than `i` exactly when `i`
      is a message. */
  lemma SeqAtNext(items: seq<Item>, i: nat, start: nat)
    requires i < |items|
    ensures SeqAt(items, i + 1, start) == SeqAt(items, i, start) + Step(items[i])
  {
    assert items[..i + 1][..i] == items[..i];
  }

  /** The message at `i` reached the output: it is a message and it
      serialized once stamped. */
  predicate WrittenAt(items: seq<Item>, i: nat, start: nat, serialize: Message -> Option<seq<byte>>)
    requires i < |items|
  {
    items[i].Protocol? && serialize(items[i].message.WithSeq(SeqAt(items, i, start))).Some?
  }

  /** The numbers in `WrittenSeqs` are exactly the stamps of the messages
      that reached the output. */
  lemma {:induction false} WrittenSeqsMembers(items: seq<Item>, start: nat, serialize: Message -> Option<seq<byte>>, k: nat)
    ensures k in WrittenSeqs(items, start, serialize) <==>
              exists i :: 0 <= i < |items| && WrittenAt(items, i, start, serialize) && k == SeqAt(items, i, start)
    decreases |items|
  {
    if items != [] {
      var last := |items| - 1;
      var init := items[..last];
      WrittenSeqsLast(items, start, serialize);
      WrittenSeqsMembers(init, start, serialize, k);
      if k in WrittenSeqs(items, start, serialize) && k !in WrittenSeqs(init, start, serialize) {
        assert WrittenAt(items, last, start, serialize) && k == SeqAt(items, last, start);
      }
      if exists i :: 0 <= i < |items| && WrittenAt(items, i, start, serialize) && k == SeqAt(items, i, start) {
        var i :| 0 <= i < |items| && WrittenAt(items, i, start, serialize) && k == SeqAt(items, i, start);
        if i < last {
          InitAgrees(items, i, start, serialize);
          assert WrittenAt(init, i, start, serialize) && k == SeqAt(init, i, start);
        }
      } else if k in WrittenSeqs(init, start, serialize) {
        var i :| 0 <= i < |init| && WrittenAt(init, i, start, serialize) && k == SeqAt(init, i, start);
        InitAgrees(items, i, start, serialize);
        assert false;
      }
    }
  }

  /** The last item adds its stamp to the written numbers exactly when it
      reached the output. */
  lemma WrittenSeqsLast(items: seq<Item>, start: nat, serialize: Message -> Option<seq<byte>>)
    requires items != []
    ensures var last := |items| - 1;
      WrittenSeqs(items, start, serialize)
        == WrittenSeqs(items[..last], start, serialize)
           + (if WrittenAt(items, last, start, serialize) then [SeqAt(items, last, start)] else [])
  {
    var last := |items| - 1;
    var init := items[..last];
    var before := WrittenSeqs(init, start, serialize);
    assert SeqAt(items, last, start) == start + ProtocolCount(init);
    if !WrittenAt(items, last, start, serialize) {
      assert WrittenSeqs(items, start, serialize) == before;
      assert before + [] == before;
    }
  }

  /** Dropping the last item changes neither the stamps nor the outcome of
      the items before it. */
  lemma InitAgrees(items: seq<Item>, i: nat, start: nat, serialize: Message -> Option<seq<byte>>)
    requires i < |items| - 1
    ensures SeqAt(items[..|items| - 1], i, start) == SeqAt(items, i, start)
    ensures WrittenAt(items[..|items| - 1], i, start, serialize) == WrittenAt(items, i, start, serialize)
  {
    assert items[..|items| - 1][..i] == items[..i];
  }

  // ---------------------------------------------------------------------
  // Reading back what was written
  // ---------------------------------------------------------------------

  /** Calls `read` until it returns None: the bodies read, or None when a
      read raises. */
  function ReadBodies(s: seq<byte>): (r: Option<seq<seq<byte>>>)
    decreases |s|
  {
    var d := Decode(s);
    match d.outcome
    case Eof => Some([])
    case Failed(_) => None
    case Message(b) =>
      match ReadBodies(s[d.consumed..])
      case None => None
      case Some(bs) => Some([b] + bs)
  }

  lemma ReadNothing()
    ensures ReadBodies([]) == Some([])
  {
    assert Decode([]).outcome == Eof;
  }

  lemma ReadOneMore(s: seq<byte>, body: seq<byte>, n: nat)
    requires Decode(s) == Decoded(Message(body), n)
    requires ReadBodies(s[n..]).Some?
    ensures ReadBodies(s) == Some([body] + ReadBodies(s[n..]).value)
  {
  }

  /** The first frame decodes to the first body, and what follows it is
      the frames of the rest. */
  lemma FirstFrame(bodies: seq<seq<byte>>)
    requires bodies != []
    ensures Decode(Frames(bodies)) == Decoded(Message(bodies[0]), |Frame(bodies[0])|)
    ensures Frames(bodies)[|Frame(bodies[0])|..] == Frames(bodies[1..])
  {
    FrameRoundTrip(bodies[0], Frames(bodies[1..]));
  }

  /** Whatever was framed is read back body for body, and nothing more. */
  lemma {:induction false} ReadFrames(bodies: seq<seq<byte>>)
    ensures ReadBodies(Frames(bodies)) == Some(bodies)
    decreases |bodies|
  {
    if bodies == [] {
      ReadNothing();
    } else {
      FirstFrame(bodies);
      ReadFrames(bodies[1..]);
      ReadOneMore(Frames(bodies), bodies[0], |Frame(bodies[0])|);
      assert [bodies[0]] + bodies[1..] == bodies;
    }
  }

  /** The transport round trip over a whole session: a peer reading the
      writer's output receives exactly the bodies of the items that were
      written, in queue order. */
  lemma WriterOutputReadsBack(items: seq<Item>, start: nat, serialize: Message -> Option<seq<byte>>)
    ensures ReadBodies(Output(items, start, serialize)) == Some(Bodies(items, start, serialize))
  {
    OutputFrames(items, start, serialize);
    ReadFrames(Bodies(items, start, serialize));
  }
}

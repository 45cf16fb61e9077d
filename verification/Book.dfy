/** The sender's history: what each accepted message was turned into, and the facts every history obeys. */
module Book {
  import opened Types
  import Encoder
  import Defragment

  /** One accepted message with the indices it was given and the bodies of its frames. */
  datatype Sent = Sent(
    msg: Message,
    reliability: Reliability,
    base: nat,
    ordered: Option<Ordered>,
    id: Option<U16>,
    pieces: seq<seq<Byte>>)
  {
    ghost predicate Well() {
      && base + |pieces| < U24_LIMIT
      && |pieces| >= 1
      && (id.None? ==> pieces == [msg.data])
      && (id.Some? ==> |pieces| >= 2 && reliability.IsReliable() && Encoder.Concat(pieces) == msg.data)
      && (ordered.Some? ==> reliability.IsReliable())
    }

    /** A message with data has no empty piece. */
    ghost predicate Filled() {
      msg.data != [] ==> forall j :: 0 <= j < |pieces| ==> pieces[j] != []
    }

    function FrameAt(j: nat): Frame
      requires base + |pieces| < U24_LIMIT && j < |pieces|
    {
      Encoder.Piece(reliability, base, ordered, id, pieces, j)
    }

    /** The frame the receiver's application is owed for this message. */
    function Expected(): Frame
      requires base + |pieces| < U24_LIMIT && |pieces| >= 1
    {
      Defragment.Reassembled(FrameAt(0).(body := msg.data))
    }

    predicate OnChannel(c: nat) {
      ordered.Some? && ordered.value.channel == c
    }
  }

  /** The data of the ordered messages of one channel, in sending order. */
  function OrderedData(book: seq<Sent>, c: nat): (r: seq<seq<Byte>>) {
    if book == [] then []
    else
      var last := book[|book| - 1];
      OrderedData(book[..|book| - 1], c) + (if last.OnChannel(c) then [last.msg.data] else [])
  }

  /** How many messages were split. */
  function Splits(book: seq<Sent>): nat {
    if book == [] then 0 else Splits(book[..|book| - 1]) + (if book[|book| - 1].id.Some? then 1 else 0)
  }

  ghost predicate Disjoint(a: Sent, b: Sent) {
    && (a.reliability.IsReliable() && b.reliability.IsReliable() ==> a.base + |a.pieces| <= b.base)
    && (a.id.Some? && b.id.Some? ==> a.id != b.id)
  }

  /**
   * Every entry is well formed; later entries use later reliable indices and other parted ids; and
   * an order index counts the ordered messages sent on the channel before.
   */
  ghost predicate WellBook(book: seq<Sent>) {
    && (forall m :: 0 <= m < |book| ==> book[m].Well())
    && (forall m, n :: 0 <= m < n < |book| ==> Disjoint(book[m], book[n]))
    && (forall m :: 0 <= m < |book| && book[m].ordered.Some? ==>
          book[m].ordered.value.frameIndex == |OrderedData(book[..m], book[m].ordered.value.channel)|)
  }

  /** Frame `f` is frame `j` of message `m`. */
  ghost predicate IsFrame(book: seq<Sent>, f: Frame, m: nat, j: nat) {
    m < |book| && book[m].Well() && j < |book[m].pieces| && f == book[m].FrameAt(j)
  }

  ghost predicate InBook(book: seq<Sent>, f: Frame) {
    exists m: nat, j: nat :: IsFrame(book, f, m, j)
  }

  lemma {:induction false} OrderedDataPrefix(book: seq<Sent>, m: nat, c: nat)
    requires m <= |book|
    ensures OrderedData(book[..m], c) <= OrderedData(book, c)
  {
    if m < |book| {
      OrderedDataPrefix(book[..|book| - 1], m, c);
      assert book[..|book| - 1][..m] == book[..m];
    } else {
      assert book[..m] == book;
    }
  }

  /** The order index of a message is its position among the data of its channel. */
  lemma OrderedAt(book: seq<Sent>, m: nat)
    requires WellBook(book) && m < |book| && book[m].ordered.Some?
    ensures var c, k := book[m].ordered.value.channel, book[m].ordered.value.frameIndex;
            k < |OrderedData(book, c)| && OrderedData(book, c)[k] == book[m].msg.data
  {
    var c := book[m].ordered.value.channel;
    OrderedDataPrefix(book, m + 1, c);
    assert book[..m + 1][..m] == book[..m];
  }

  /** Two ordered messages of a channel never share an index. */
  lemma OrderedUnique(book: seq<Sent>, m: nat, n: nat)
    requires WellBook(book) && m < n < |book|
    requires book[m].ordered.Some? && book[n].ordered.Some?
             && book[m].ordered.value.channel == book[n].ordered.value.channel
    ensures book[m].ordered.value.frameIndex < book[n].ordered.value.frameIndex
  {
    var c := book[m].ordered.value.channel;
    OrderedDataPrefix(book[..n], m + 1, c);
    assert book[..n][..m + 1] == book[..m + 1] && book[..m + 1][..m] == book[..m];
  }

  /** Every index below the number of ordered messages belongs to one of them. */
  lemma {:induction false} OrderedOwner(book: seq<Sent>, c: nat, k: nat) returns (m: nat)
    requires WellBook(book) && k < |OrderedData(book, c)|
    ensures m < |book| && book[m].OnChannel(c) && book[m].ordered.value.frameIndex == k
  {
    var last := |book| - 1;
    if k < |OrderedData(book[..last], c)| {
      WellBookPrefix(book, last);
      m := OrderedOwner(book[..last], c, k);
    } else {
      m := last;
    }
  }

  lemma WellBookPrefix(book: seq<Sent>, m: nat)
    requires WellBook(book) && m <= |book|
    ensures WellBook(book[..m])
  {
    forall n | 0 <= n < m
      ensures book[..m][..n] == book[..n]
    {
    }
  }

  /** The entry a message makes under the current counters. */
  function Entry(mtu: nat, st: Encoder.Counters, msg: Message): Sent
    requires Encoder.CanSend(mtu, st, msg)
  {
    Sent(
      msg, Encoder.Effective(mtu, msg), st.reliableNext, Encoder.OrderedPart(st, mtu, msg),
      if Encoder.NeedsSplit(mtu, msg) then Some(st.partedNext) else None, Encoder.Pieces(mtu, msg))
  }

  /** The counters stand just past everything in the book. */
  ghost predicate Agrees(book: seq<Sent>, st: Encoder.Counters) {
    && WellBook(book)
    && Splits(book) <= U16_LIMIT
    && st.partedNext == Splits(book) % 0x1_0000
    && (forall m :: 0 <= m < |book| && book[m].reliability.IsReliable() ==>
         book[m].base + |book[m].pieces| <= st.reliableNext)
    && (forall m :: 0 <= m < |book| && book[m].id.Some? ==> book[m].id.value < Splits(book))
    && (forall c :: 0 <= c < |st.orderNext| ==> st.orderNext[c] == |OrderedData(book, c)|)
  }

  lemma AgreesInitially(channels: nat)
    ensures Agrees([], Encoder.Initial(channels))
  {
  }

  /** The entry of a message is well formed and takes exactly the next indices. */
  lemma EntryWell(mtu: nat, st: Encoder.Counters, msg: Message)
    requires Encoder.CanSend(mtu, st, msg) && !msg.reliability.IsSequenced()
    ensures var e, st' := Entry(mtu, st, msg), Encoder.After(mtu, st, msg);
            && e.Well() && e.base == st.reliableNext
            && (e.id.Some? ==> e.id.value == st.partedNext)
            && (e.ordered.Some? ==>
                 e.ordered.value.channel == msg.orderChannel
                 && e.ordered.value.frameIndex == st.orderNext[msg.orderChannel])
            && st'.reliableNext == (if e.reliability.IsReliable() then e.base + |e.pieces| else e.base)
            && st'.orderNext == (if e.ordered.Some?
                                 then st.orderNext[msg.orderChannel := st.orderNext[msg.orderChannel] + 1]
                                   else st.orderNext)
            && st'.partedNext == (if e.id.Some? then (st.partedNext + 1) % 0x1_0000 else st.partedNext)
    ensures Encoder.Frames(mtu, st, msg) == Encoder.PieceFrames(
              Entry(mtu, st, msg).reliability, st.reliableNext, Entry(mtu, st, msg).ordered, Entry(mtu, st, msg).id,
                  Entry(mtu, st, msg).pieces)
  {
    if Encoder.NeedsSplit(mtu, msg) {
      Encoder.ChunksConcat(msg.data, Encoder.PerLen(mtu, msg));
    }
  }

  /** An entry that takes the next indices keeps the book well formed. */
  lemma Extend(book: seq<Sent>, st: Encoder.Counters, e: Sent)
    requires Agrees(book, st) && e.Well() && e.base == st.reliableNext
    requires e.id.Some? ==> e.id.value == st.partedNext && Splits(book) < U16_LIMIT
    requires e.ordered.Some? ==>
               e.ordered.value.channel < |st.orderNext|
                   && e.ordered.value.frameIndex == st.orderNext[e.ordered.value.channel]
    ensures WellBook(book + [e])
  {
    hide Splits;
    hide OrderedData;
    var book' := book + [e];
    forall m | 0 <= m < |book|
      ensures Disjoint(book[m], e)
    {
      assert book[m].reliability.IsReliable() ==> book[m].base + |book[m].pieces| <= st.reliableNext;
    }
    forall m | 0 <= m < |book'| && book'[m].ordered.Some?
      ensures book'[m].ordered.value.frameIndex == |OrderedData(book'[..m], book'[m].ordered.value.channel)|
    {
      assert book'[..m] == book[..m];
    }
    assert book[..|book|] == book;
  }

  /**
   * Sending keeps the book well formed. The parted id is 16 bits wide, so the claim is for at most
   * 65536 split messages; sequenced reliabilities carry no sequence index yet and are excluded.
   */
  lemma SendAgrees(mtu: nat, book: seq<Sent>, st: Encoder.Counters, msg: Message)
    requires Agrees(book, st) && Encoder.CanSend(mtu, st, msg)
    requires !msg.reliability.IsSequenced()
    requires Splits(book + [Entry(mtu, st, msg)]) <= U16_LIMIT
    ensures Agrees(book + [Entry(mtu, st, msg)], Encoder.After(mtu, st, msg))
  {
    hide Encoder.After;
    hide Entry;
    hide Encoder.CanSend;
    hide Agrees;
    hide Sent.Well;
    var e := Entry(mtu, st, msg);
    EntryWell(mtu, st, msg);
    CanSendChannel(mtu, st, msg);
    SplitsGrow(book, e);
    Extend(book, st, e);
    ExtendAgrees(book, st, e, msg.orderChannel, Encoder.After(mtu, st, msg));
  }

  lemma SplitsGrow(book: seq<Sent>, e: Sent)
    ensures Splits(book + [e]) == Splits(book) + if e.id.Some? then 1 else 0
  {
    assert (book + [e])[..|book|] == book;
  }

  /** The counters stay in step with a book that grows by the entry they numbered. */
  lemma ExtendAgrees(book: seq<Sent>, st: Encoder.Counters, e: Sent, channel: nat, st': Encoder.Counters)
    requires Agrees(book, st) && WellBook(book + [e]) && Splits(book + [e]) <= U16_LIMIT
    requires e.base == st.reliableNext && (e.id.Some? ==> e.id.value == st.partedNext) && channel < |st.orderNext|
    requires e.ordered.Some? ==> e.ordered.value.channel == channel
    requires st'.reliableNext == if e.reliability.IsReliable() then e.base + |e.pieces| else e.base
    requires st'.orderNext == if e.ordered.Some? then st.orderNext[channel := st.orderNext[channel] + 1]
                              else st.orderNext
    requires st'.partedNext == if e.id.Some? then (st.partedNext + 1) % 0x1_0000 else st.partedNext
    ensures Agrees(book + [e], st')
  {
    hide WellBook;
    SplitsGrow(book, e);
    assert (book + [e])[..|book|] == book;
  }

  lemma CanSendChannel(mtu: nat, st: Encoder.Counters, msg: Message)
    requires Encoder.CanSend(mtu, st, msg)
    ensures msg.orderChannel < |st.orderNext|
  {
  }
}

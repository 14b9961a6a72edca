/** Reissue messages: a count and that many realtime items, one after another without any delimiter. */
module Reissue {
  import opened Bytes
  import opened BcdTime
  import opened Codec
  import opened FieldWire
  import opened FieldExtent
  import opened Realtime

  datatype ReissueMessage = ReissueMessage(infoTime: Time, items: seq<Message>)

  /** How one item is read off the front of the remaining bytes, and how many of them it takes. */
  type ItemParser = bytes -> Result<(Message, nat), ParseError>

  ghost predicate Parses(parse: ItemParser, codec: TimeCodec)
  {
    forall d {:trigger RealtimeItem(codec, d)} :: parse(d) == RealtimeItem(codec, d)
  }

  /** Items are read as realtime messages. */
  ghost function Parser(codec: TimeCodec): (parse: ItemParser)
    ensures Parses(parse, codec)
  {
    assert Parses(d => RealtimeItem(codec, d), codec);
    var parse: ItemParser :| Parses(parse, codec);
    parse
  }

  /** The item loop from `pos` on, with `n` announced items to go. */
  function ItemsFrom(parse: ItemParser, data: bytes, n: nat, pos: nat): (items: seq<Message>)
    decreases n
  {
    if n == 0 || pos >= |data| then []
    else
      match parse(data[pos..])
      case Err(_) => []
      case Ok((msg, consumed)) => [msg] + ItemsFrom(parse, data, n - 1, pos + consumed)
  }

  lemma ItemsAdvance(parse: ItemParser, data: bytes, n: nat, pos: nat, items: seq<Message>,
                     r: Result<(Message, nat), ParseError>)
    requires n > 0 && pos < |data| && r == parse(data[pos..])
    ensures r.Err? ==> ItemsFrom(parse, data, n, pos) == []
    ensures r.Ok? ==> items + ItemsFrom(parse, data, n, pos)
                      == (items + [r.value.0]) + ItemsFrom(parse, data, n - 1, pos + r.value.1)
  {
    if r.Ok? {
      SnocCons(items, r.value.0, ItemsFrom(parse, data, n - 1, pos + r.value.1));
    }
  }

  ghost function DecodeReissue(codec: TimeCodec, data: bytes): Result<ReissueMessage, ParseError>
  {
    if |data| < 8 then Err(MessageTooShort)
    else Ok(ReissueMessage(DecodeTime(codec, data[..6]), ItemsFrom(Parser(codec), data, U16(data, 6), 8)))
  }

  method DecodeReissueData(codec: TimeCodec, data: bytes) returns (r: Result<ReissueMessage, ParseError>)
    ensures r == DecodeReissue(codec, data)
  {
    if |data| < 8 {
      return Err(MessageTooShort);
    }
    var infoTime := DecodeTime(codec, data[..6]);
    var totalItems := U16(data, 6);
    var items := DecodeItems(codec, data, totalItems);
    return Ok(ReissueMessage(infoTime, items));
  }

  method DecodeItems(codec: TimeCodec, data: bytes, totalItems: nat) returns (items: seq<Message>)
    requires |data| >= 8
    ensures items == ItemsFrom(Parser(codec), data, totalItems, 8)
  {
    ghost var parse := Parser(codec);
    ghost var whole := ItemsFrom(parse, data, totalItems, 8);
    ghost var left := whole;
    var pos: nat := 8;
    items := [];
    var i := 0;
    while i < totalItems && pos < |data|
      invariant 0 <= i <= totalItems
      invariant whole == items + left && left == ItemsFrom(parse, data, totalItems - i, pos)
    {
      var item := DecodeRealtimeItem(codec, data[pos..]);
      ItemsAdvance(parse, data, totalItems - i, pos, items, item);
      if item.Err? {
        return;
      }
      items := items + [item.value.0];
      pos := pos + item.value.1;
      i := i + 1;
      left := ItemsFrom(parse, data, totalItems - i, pos);
    }
    assert items + [] == items;
  }

  // ---- Item bound --------------------------------------------------------------------------------------

  /** An accepted item takes at least `least` and at most all of the bytes it is given. */
  ghost predicate Takes(parse: ItemParser, least: nat)
  {
    forall d :: parse(d).Ok? ==> least <= parse(d).value.1 <= |d|
  }

  lemma RealtimeItemTakes(codec: TimeCodec)
    ensures Takes(Parser(codec), 6)
  {
    var parse := Parser(codec);
    forall d: bytes | parse(d).Ok?
      ensures 6 <= parse(d).value.1 <= |d|
    {
      assert parse(d) == RealtimeItem(codec, d);
    }
  }

  lemma {:induction false} ItemsFit(parse: ItemParser, least: nat, data: bytes, n: nat, pos: nat)
    requires Takes(parse, least) && pos <= |data|
    ensures |ItemsFrom(parse, data, n, pos)| <= n
    ensures pos + least * |ItemsFrom(parse, data, n, pos)| <= |data|
    decreases n
  {
    if n > 0 && pos < |data| && parse(data[pos..]).Ok? {
      var item := parse(data[pos..]).value;
      ItemsFit(parse, least, data, n - 1, pos + item.1);
      var k := |ItemsFrom(parse, data, n - 1, pos + item.1)|;
      assert least * (k + 1) == least * k + least;
    }
  }

  /** For every byte string, the items decoded are no more than announced and each takes at least six bytes. */
  lemma ReissueIsBounded(codec: TimeCodec, data: bytes)
    ensures var r := DecodeReissue(codec, data);
            r.Ok? ==> |r.value.items| <= U16(data, 6) && 8 + 6 * |r.value.items| <= |data|
  {
    if |data| >= 8 {
      RealtimeItemTakes(codec);
      ItemsFit(Parser(codec), 6, data, U16(data, 6), 8);
    }
  }

  // ---- Segmentation ------------------------------------------------------------------------------------

  /** Every part is read as its message, and to its end, when it stands before the parts that follow it. */
  predicate ReadsEach(parse: ItemParser, parts: seq<bytes>, msgs: seq<Message>)
    requires |msgs| == |parts|
  {
    parts == [] || (
      && parts[0] != [] && parse(Flat(parts)) == Ok((msgs[0], |parts[0]|))
      && ReadsEach(parse, parts[1..], msgs[1..])
    )
  }

  lemma FlatCons(part: bytes, parts: seq<bytes>)
    ensures Flat([part] + parts) == part + Flat(parts)
  {
    assert ([part] + parts)[1..] == parts;
  }

  lemma DropFront(data: bytes, pos: nat, front: bytes, later: bytes)
    requires pos <= |data| && data[pos..] == front + later
    ensures pos + |front| <= |data| && data[pos + |front|..] == later
  {
    assert data[pos + |front|..] == data[pos..][|front|..];
  }

  lemma {:induction false} PartsParsed(parse: ItemParser, data: bytes, pos: nat, parts: seq<bytes>, msgs: seq<Message>)
    requires |msgs| == |parts| && ReadsEach(parse, parts, msgs)
    requires pos <= |data| && data[pos..] == Flat(parts)
    ensures ItemsFrom(parse, data, |parts|, pos) == msgs
    decreases |parts|
  {
    if parts != [] {
      DropFront(data, pos, parts[0], Flat(parts[1..]));
      PartsParsed(parse, data, pos + |parts[0]|, parts[1..], msgs[1..]);
      assert msgs == [msgs[0]] + msgs[1..];
    }
  }

  datatype Item = Item(time: bytes, fields: seq<Field>)

  predicate IsItem(it: Item)
  {
    |it.time| == 6 && Plain(it.fields)
  }

  predicate AreItems(its: seq<Item>)
  {
    forall i :: 0 <= i < |its| ==> IsItem(its[i])
  }

  function ItemBytes(it: Item): (b: bytes)
    requires IsItem(it)
    ensures |b| >= 6 && b[0] == it.time[0]
  {
    it.time + EncodeAll(it.fields)
  }

  function PartsOf(its: seq<Item>): (parts: seq<bytes>)
    requires AreItems(its)
    ensures |parts| == |its|
  {
    if its == [] then [] else [ItemBytes(its[0])] + PartsOf(its[1..])
  }

  function MessageOf(codec: TimeCodec, it: Item): Message
    requires IsItem(it)
  {
    Summary(DecodeTime(codec, it.time), it.fields)
  }

  function MessagesOf(codec: TimeCodec, its: seq<Item>): (msgs: seq<Message>)
    requires AreItems(its)
    ensures |msgs| == |its|
  {
    if its == [] then [] else [MessageOf(codec, its[0])] + MessagesOf(codec, its[1..])
  }

  /** The loop reaches the end of an item's fields with all of them applied. */
  lemma ItemReached(codec: TimeCodec, it: Item, later: bytes)
    requires IsItem(it)
    ensures RealtimeItem(codec, ItemBytes(it) + later)
            == Ok(ParseFields(ItemBytes(it) + later, |ItemBytes(it)|, MessageOf(codec, it)))
  {
    var data := ItemBytes(it) + later;
    Assoc(it.time, EncodeAll(it.fields), later);
    PlainPrefix(codec, data, it.time, it.fields, later);
    FoldIsSummary(DecodeTime(codec, it.time), it.fields);
  }

  /** The loop stops where it is exactly when the data ends there or goes on with a byte that is no identifier. */
  lemma StopsHereIff(data: bytes, pos: nat, msg: Message)
    requires pos <= |data|
    ensures ParseFields(data, pos, msg) == (msg, pos) <==> pos == |data| || !HasDecoder(data[pos])
  {
  }

  /** An item is read to its end, and no further, exactly when what follows cannot be taken for a field identifier. */
  lemma ItemParsedIff(codec: TimeCodec, it: Item, later: bytes)
    requires IsItem(it)
    ensures RealtimeItem(codec, ItemBytes(it) + later) == Ok((MessageOf(codec, it), |ItemBytes(it)|))
            <==> later == [] || !HasDecoder(later[0])
  {
    ItemReached(codec, it, later);
    StopsHereIff(ItemBytes(it) + later, |ItemBytes(it)|, MessageOf(codec, it));
  }

  /** Every item but the first starts with a byte that is not a field identifier. */
  predicate StartsSafely(its: seq<Item>)
    requires AreItems(its)
  {
    forall i :: 1 <= i < |its| ==> !HasDecoder(its[i].time[0])
  }

  lemma StartsSafelyCons(its: seq<Item>)
    requires AreItems(its) && its != []
    ensures StartsSafely(its) <==> (|its| == 1 || !HasDecoder(its[1].time[0])) && StartsSafely(its[1..])
  {
    var rest := its[1..];
    assert forall i :: 1 <= i < |rest| ==> rest[i] == its[i + 1];
    if StartsSafely(rest) {
      forall i | 2 <= i < |its|
        ensures !HasDecoder(its[i].time[0])
      {
        assert its[i] == rest[i - 1];
      }
    }
  }

  lemma ReadsFirst(parse: ItemParser, part: bytes, msg: Message, parts: seq<bytes>, msgs: seq<Message>)
    requires |msgs| == |parts| && part != []
    ensures ReadsEach(parse, [part] + parts, [msg] + msgs)
            <==> parse(part + Flat(parts)) == Ok((msg, |part|)) && ReadsEach(parse, parts, msgs)
  {
    FlatCons(part, parts);
    assert ([part] + parts)[1..] == parts && ([msg] + msgs)[1..] == msgs;
  }

  /** Each item of a message is read to its end exactly when every later one starts safely. */
  lemma {:induction false} EachIsReadIff(codec: TimeCodec, its: seq<Item>)
    requires AreItems(its)
    ensures ReadsEach(Parser(codec), PartsOf(its), MessagesOf(codec, its)) <==> StartsSafely(its)
    decreases |its|
  {
    if its != [] {
      var rest := its[1..];
      var later := Flat(PartsOf(rest));
      EachIsReadIff(codec, rest);
      FlatStart(rest);
      StartsSafelyCons(its);
      ItemParsedIff(codec, its[0], later);
      ReadsFirst(Parser(codec), ItemBytes(its[0]), MessageOf(codec, its[0]), PartsOf(rest), MessagesOf(codec, rest));
    }
  }

  lemma FlatStart(its: seq<Item>)
    requires AreItems(its)
    ensures if its == [] then Flat(PartsOf(its)) == []
            else Flat(PartsOf(its)) != [] && Flat(PartsOf(its))[0] == its[0].time[0]
  {
    if its != [] {
      FlatCons(ItemBytes(its[0]), PartsOf(its[1..]));
    }
  }

  /** Time bytes, count and items of a reissue message. */
  function ReissueBytes(head: bytes, its: seq<Item>): bytes
    requires |head| == 6 && AreItems(its)
  {
    head + Put16(|its|) + Flat(PartsOf(its))
  }

  /** The decoder returns exactly these items, in order. */
  ghost predicate Segmented(codec: TimeCodec, head: bytes, its: seq<Item>)
    requires |head| == 6 && AreItems(its)
  {
    DecodeReissue(codec, ReissueBytes(head, its))
    == Ok(ReissueMessage(DecodeTime(codec, head), MessagesOf(codec, its)))
  }

  lemma HeadReads(head: bytes, its: seq<Item>)
    requires |head| == 6 && AreItems(its) && |its| < 0x1_0000
    ensures var data := ReissueBytes(head, its);
            data[..6] == head && U16(data, 6) == |its| && data[8..] == Flat(PartsOf(its))
  {
    var data := ReissueBytes(head, its);
    AtWhole(data);
    AtSplit(data, 0, head + Put16(|its|), Flat(PartsOf(its)));
    AtSplit(data, 0, head, Put16(|its|));
    AtU16(data, 6, |its|);
  }

  /** Segmentation: any list of items whose later items start safely is recovered exactly. */
  lemma ReissueSegments(codec: TimeCodec, head: bytes, its: seq<Item>)
    requires |head| == 6 && AreItems(its) && |its| < 0x1_0000 && StartsSafely(its)
    ensures Segmented(codec, head, its)
  {
    HeadReads(head, its);
    EachIsReadIff(codec, its);
    PartsParsed(Parser(codec), ReissueBytes(head, its), 8, PartsOf(its), MessagesOf(codec, its));
  }

  predicate LaterStartWith(its: seq<Item>, b: byte)
    requires AreItems(its)
  {
    forall i :: 1 <= i < |its| ==> its[i].time[0] == b
  }

  /**
   A byte is a safe first byte for items, in every reissue message, exactly when it is no field identifier; in BCD
   the identifiers are the years 2001 to 2009.
   */
  lemma SafeFirstByteIff(codec: TimeCodec, head: bytes, b: byte)
    requires |head| == 6
    ensures (forall its :: AreItems(its) && |its| < 0x1_0000 && LaterStartWith(its, b) ==> Segmented(codec, head, its))
            <==> !HasDecoder(b)
  {
    if !HasDecoder(b) {
      forall its | AreItems(its) && |its| < 0x1_0000 && LaterStartWith(its, b)
        ensures Segmented(codec, head, its)
      {
        ReissueSegments(codec, head, its);
      }
    } else {
      var its := UnsafeFirstByte(codec, head, b);
    }
  }

  lemma BareItems(its: seq<Item>)
    requires |its| == 2 && AreItems(its) && its[0].fields == its[1].fields == []
    ensures Flat(PartsOf(its)) == its[0].time + its[1].time
  {
    var tail := its[1..];
    assert tail[0] == its[1] && tail[1..] == [];
    assert ItemBytes(its[0]) == its[0].time && ItemBytes(tail[0]) == its[1].time;
    FlatCons(its[0].time, PartsOf(tail));
    FlatCons(its[1].time, PartsOf(tail[1..]));
  }

  lemma IdentifierIsSwallowed(codec: TimeCodec, data: bytes)
    requires |data| == 12 && HasDecoder(data[6])
    ensures var r := RealtimeItem(codec, data); r.Ok? && r.value.1 >= 7
  {
  }

  lemma UnsafeFirstByte(codec: TimeCodec, head: bytes, b: byte) returns (its: seq<Item>)
    requires |head| == 6 && HasDecoder(b)
    ensures AreItems(its) && |its| == 2 && LaterStartWith(its, b) && !Segmented(codec, head, its)
  {
    its := [Item([0, 0, 0, 0, 0, 0], []), Item([b, b, b, b, b, b], [])];
    TwoItemsMerge(codec, head, its, b);
  }

  /** Two items without fields of which the second starts with a field identifier are not read as two. */
  lemma TwoItemsMerge(codec: TimeCodec, head: bytes, its: seq<Item>, b: byte)
    requires |head| == 6 && |its| == 2 && AreItems(its) && its[0].fields == its[1].fields == []
    requires its[1].time[0] == b && HasDecoder(b)
    ensures !Segmented(codec, head, its)
  {
    var data := ReissueBytes(head, its);
    HeadReads(head, its);
    var rest := data[8..];
    BareItems(its);
    assert rest[6] == b && |rest| == 12;
    RealtimeItemTakes(codec);
    IdentifierIsSwallowed(codec, rest);
    SecondItemLost(Parser(codec), data);
  }

  lemma SecondItemLost(parse: ItemParser, data: bytes)
    requires |data| == 20 && Takes(parse, 6) && parse(data[8..]).Ok? && parse(data[8..]).value.1 >= 7
    ensures |ItemsFrom(parse, data, 2, 8)| < 2
  {
    var next := 8 + parse(data[8..]).value.1;
    ItemsFit(parse, 6, data, 1, next);
    assert ItemsFrom(parse, data, 2, 8) == [parse(data[8..]).value.0] + ItemsFrom(parse, data, 1, next);
  }

  /** Fourteen bytes: a time, six 2s and an empty motor field. The first 2 is taken for a field that does not fit. */
  lemma IdentifierSkipped(codec: TimeCodec, time: bytes, data: bytes)
    requires |time| == 6 && data == time + [2, 2, 2, 2, 2, 2, 2, 0]
    ensures RealtimeItem(codec, data) == Ok((Empty(DecodeTime(codec, time)), 7))
    ensures RealtimeItem(codec, data[7..]) == Ok((Empty(DecodeTime(codec, [2, 2, 2, 2, 2, 2])), 6))
  {
    assert data[..6] == time && data[6] == MOTOR && data[7] == 2;
    assert data[7..][..6] == [2, 2, 2, 2, 2, 2] && data[7..][6] == 0;
  }

  lemma TwoItemsFrom(parse: ItemParser, data: bytes, a: Message, b: Message, n: nat, m: nat)
    requires |data| >= 8 + n + m && n > 0 && m > 0
    requires parse(data[8..]) == Ok((a, n)) && parse(data[8 + n..]) == Ok((b, m))
    ensures ItemsFrom(parse, data, 2, 8) == [a, b]
  {
    assert ItemsFrom(parse, data, 1, 8 + n) == [b] + ItemsFrom(parse, data, 0, 8 + n + m);
  }

  function Coincidence(time: bytes): (its: seq<Item>)
    requires |time| == 6
    ensures AreItems(its)
  {
    [Item(time, []), Item([2, 2, 2, 2, 2, 2], [Motors([])])]
  }

  lemma CoincidentBytes(time: bytes)
    requires |time| == 6
    ensures Flat(PartsOf(Coincidence(time))) == time + [2, 2, 2, 2, 2, 2, 2, 0]
  {
    var its := Coincidence(time);
    var fields := its[1].fields;
    assert its == [its[0], its[1]] && its[1..] == [its[1]] && [its[1]][1..] == [] && fields[1..] == [];
    assert Encode(fields[0]) == [2, 0] && EncodeAll(fields) == [2, 0] + EncodeAll([]) == [2, 0];
    assert ItemBytes(its[1]) == [2, 2, 2, 2, 2, 2, 2, 0] && ItemBytes(its[0]) == time;
    FlatCons(ItemBytes(its[0]), PartsOf(its[1..]));
    FlatCons(ItemBytes(its[1]), []);
  }

  lemma CoincidentMessages(codec: TimeCodec, time: bytes)
    requires |time| == 6
    ensures MessagesOf(codec, Coincidence(time))
            == [Empty(DecodeTime(codec, time)), Empty(DecodeTime(codec, [2, 2, 2, 2, 2, 2]))]
  {
    var its := Coincidence(time);
    assert its[1..] == [its[1]] && [its[1]][1..] == [];
    var fields := its[1].fields;
    assert fields[..0] == [] && AllMotors(fields) == AllMotors([]) + [] == [];
    assert MessageOf(codec, its[1]) == Empty(DecodeTime(codec, its[1].time));
    assert MessageOf(codec, its[0]) == Empty(DecodeTime(codec, its[0].time));
  }

  /**
   The messages can come out right although an item was not read to its end: here the second item loses a byte, and
   its empty motor field with it, which shows nowhere.
   */
  lemma SegmentedByCoincidence(codec: TimeCodec, head: bytes, time: bytes)
    requires |head| == |time| == 6
    ensures !StartsSafely(Coincidence(time)) && Segmented(codec, head, Coincidence(time))
  {
    var its := Coincidence(time);
    var data := ReissueBytes(head, its);
    assert its[1].time[0] == MOTOR;
    HeadReads(head, its);
    CoincidentBytes(time);
    CoincidentMessages(codec, time);
    IdentifierSkipped(codec, time, data[8..]);
    assert data[8..][7..] == data[15..];
    TwoItemsFrom(Parser(codec), data, Empty(DecodeTime(codec, time)),
                 Empty(DecodeTime(codec, [2, 2, 2, 2, 2, 2])), 7, 6);
  }
}

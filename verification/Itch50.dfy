/** Nasdaq TotalView-ITCH 5.0 messages: sizes and the fields the adapter reads. */
module Itch50 {
  import opened Machine
  import opened MoldUdp64
  import Books

  /** None is a side byte that is neither 'B' nor 'S'. */
  type OptionalSide = Option<Books.Side>

  datatype ItchMessage =
    | AddOrder(id: U64, side: OptionalSide, quantity: U32, price: U32)
    | OrderExecuted(id: U64, quantity: U32, matchId: U64, priced: bool, flag: Byte, price: U32)
    | OrderCancel(id: U64, quantity: U32)
    | OrderDelete(id: U64)
    | OrderReplace(id: U64, newId: U64, quantity: U32, price: U32)
    | NonCrossTrade(id: U64, side: OptionalSide, quantity: U32, price: U32, matchId: U64)
    | CrossTrade(crossed: U64, price: U32, matchId: U64)
    | BrokenTrade(matchId: U64)
    | NotBook

  /** Size of a message of this type with its type byte; zero for an unknown type. */
  function ExpectedMessageSize(kind: Byte): nat {
    match kind as int as char
    case 'S' => 12
    case 'R' => 39
    case 'H' => 25
    case 'Y' => 20
    case 'L' => 26
    case 'V' => 35
    case 'W' => 12
    case 'K' => 28
    case 'J' => 35
    case 'h' => 21
    case 'A' => 36
    case 'F' => 40
    case 'E' => 31
    case 'C' => 36
    case 'X' => 23
    case 'D' => 19
    case 'U' => 35
    case 'P' => 44
    case 'Q' => 40
    case 'B' => 19
    case 'I' => 50
    case 'N' => 20
    case _ => 0
  }

  /** Widths of the fields that follow the eleven common bytes of each message type of the format. */
  function FieldWidths(kind: char): seq<nat> {
    match kind
    case 'S' => [1]
    case 'R' => [8, 1, 1, 4, 1, 1, 2, 1, 1, 1, 1, 1, 4, 1]
    case 'H' => [8, 1, 1, 4]
    case 'Y' => [8, 1]
    case 'L' => [4, 8, 1, 1, 1]
    case 'V' => [8, 8, 8]
    case 'W' => [1]
    case 'K' => [8, 4, 1, 4]
    case 'J' => [8, 4, 4, 4, 4]
    case 'h' => [8, 1, 1]
    case 'A' => [8, 1, 4, 8, 4]
    case 'F' => [8, 1, 4, 8, 4, 4]
    case 'E' => [8, 4, 8]
    case 'C' => [8, 4, 8, 1, 4]
    case 'X' => [8, 4]
    case 'D' => [8]
    case 'U' => [8, 8, 4, 4]
    case 'P' => [8, 1, 4, 8, 4, 8]
    case 'Q' => [8, 8, 4, 8, 1]
    case 'B' => [8]
    case 'I' => [8, 8, 1, 8, 4, 4, 4, 1, 1]
    case 'N' => [8, 1]
    case _ => []
  }

  function Width(widths: seq<nat>): nat {
    if widths == [] then 0 else widths[0] + Width(widths[1..])
  }

  /** The size table is the sum of the format's field widths. */
  lemma MessageSizes(kind: Byte)
    requires FieldWidths(kind as char) != []
    ensures ExpectedMessageSize(kind) == 11 + Width(FieldWidths(kind as char))
  {
    hide Width;
    WidthsAdd(FieldWidths(kind as char));
  }

  lemma {:induction false} WidthsAdd(q: seq<nat>)
    ensures |q| <= 14 ==>
              Width(q) == At(q, 0) + At(q, 1) + At(q, 2) + At(q, 3) + At(q, 4) + At(q, 5) + At(q, 6) + At(q, 7)
                          + At(q, 8) + At(q, 9) + At(q, 10) + At(q, 11) + At(q, 12) + At(q, 13)
  {
    if q != [] {
      WidthsAdd(q[1..]);
    }
  }

  function At(q: seq<nat>, i: nat): nat {
    if i < |q| then q[i] else 0
  }

  function SideOf(b: Byte): OptionalSide {
    if b == 'B' as int then Some(Books.Buy) else if b == 'S' as int then Some(Books.Sell) else None
  }

  /** A message the pipeline passes on: long enough for the common fields and of its type's size. */
  predicate WellSizedMessage(m: Bytes) {
    |m| >= 11 && |m| == ExpectedMessageSize(m[0])
  }

  function Locator(m: Bytes): U16
    requires |m| >= 11
  {
    ReadU16(m, 1)
  }

  /** Field positions of the order and trade messages; only 'C' carries a flag and its own price. */
  function Fields(m: Bytes): ItchMessage
    requires WellSizedMessage(m)
  {
    var kind := m[0] as int as char;
    if kind == 'A' || kind == 'F' then AddOrder(ReadU64(m, 11), SideOf(m[19]), ReadU32(m, 20), ReadU32(m, 32))
    else if kind == 'E' then OrderExecuted(ReadU64(m, 11), ReadU32(m, 19), ReadU64(m, 23), false, 'Y' as int, 0)
    else if kind == 'C' then OrderExecuted(ReadU64(m, 11), ReadU32(m, 19), ReadU64(m, 23), true, m[31], ReadU32(m, 32))
    else if kind == 'X' then OrderCancel(ReadU64(m, 11), ReadU32(m, 19))
    else if kind == 'D' then OrderDelete(ReadU64(m, 11))
    else if kind == 'U' then OrderReplace(ReadU64(m, 11), ReadU64(m, 19), ReadU32(m, 27), ReadU32(m, 31))
    else if kind == 'P' then NonCrossTrade(ReadU64(m, 11), SideOf(m[19]), ReadU32(m, 20), ReadU32(m, 32),
                                           ReadU64(m, 36))
    else if kind == 'Q' then CrossTrade(ReadU64(m, 11), ReadU32(m, 27), ReadU64(m, 31))
    else if kind == 'B' then BrokenTrade(ReadU64(m, 11))
    else NotBook
  }

  /** A message of this type whose i-th byte is i. */
  ghost function Counting(kind: Byte): Bytes {
    seq(ExpectedMessageSize(kind), i requires 0 <= i < ExpectedMessageSize(kind) => if i == 0 then kind else i)
  }

  /** The field positions and the byte order, read off messages whose bytes count up. */
  lemma FieldPositions(kind: Byte)
    requires kind as char in {'A', 'F', 'E', 'C', 'X', 'D', 'U', 'P', 'Q', 'B'}
    ensures var m, id := Counting(kind), 0x0B0C0D0E0F101112;
            && WellSizedMessage(m) && Locator(m) == 0x0102
            && Fields(m) ==
               match kind as char
               case 'E' => OrderExecuted(id, 0x13141516, 0x1718191A1B1C1D1E, false, 'Y' as int, 0)
               case 'C' => OrderExecuted(id, 0x13141516, 0x1718191A1B1C1D1E, true, 0x1F, 0x20212223)
               case 'X' => OrderCancel(id, 0x13141516)
               case 'D' => OrderDelete(id)
               case 'U' => OrderReplace(id, 0x131415161718191A, 0x1B1C1D1E, 0x1F202122)
               case 'P' => NonCrossTrade(id, None, 0x14151617, 0x20212223, 0x2425262728292A2B)
               case 'Q' => CrossTrade(id, 0x1B1C1D1E, 0x1F20212223242526)
               case 'B' => BrokenTrade(id)
               case _ => AddOrder(id, None, 0x14151617, 0x20212223)
    ensures SideOf('B' as int) == Some(Books.Buy) && SideOf('S' as int) == Some(Books.Sell)
    ensures forall b: Byte :: b != 'B' as int && b != 'S' as int ==> SideOf(b) == None
  {
    hide ReadU64, ReadU32;
    CountingReads(Counting(kind));
  }

  lemma CountingReads(m: Bytes)
    requires forall i :: 0 < i < |m| ==> m[i] == i
    ensures |m| >= 19 ==> ReadU64(m, 11) == 0x0B0C0D0E0F101112
    ensures |m| >= 23 ==> ReadU32(m, 19) == 0x13141516
    ensures |m| >= 24 ==> ReadU32(m, 20) == 0x14151617
    ensures |m| >= 27 ==> ReadU64(m, 19) == 0x131415161718191A
    ensures |m| >= 31 ==> ReadU32(m, 27) == 0x1B1C1D1E && ReadU64(m, 23) == 0x1718191A1B1C1D1E
    ensures |m| >= 35 ==> ReadU32(m, 31) == 0x1F202122
    ensures |m| >= 36 ==> ReadU32(m, 32) == 0x20212223
    ensures |m| >= 39 ==> ReadU64(m, 31) == 0x1F20212223242526
    ensures |m| >= 44 ==> ReadU64(m, 36) == 0x2425262728292A2B
  {
  }

  // ---- The wire layout, as an inverse of Fields ----

  ghost function SideByte(s: OptionalSide): Byte {
    if s == Some(Books.Buy) then 'B' as int else if s == Some(Books.Sell) then 'S' as int else 0
  }

  /** The type-specific part of a message; `stock` is the eight-byte symbol. */
  ghost function Body(m: ItchMessage, stock: Bytes): Bytes {
    match m
    case AddOrder(id, side, q, p) => BigEndian(id, 8) + [SideByte(side)] + BigEndian(q, 4) + stock + BigEndian(p, 4)
    case OrderExecuted(id, q, k, priced, flag, p) =>
      BigEndian(id, 8) + BigEndian(q, 4) + BigEndian(k, 8) + if priced then [flag] + BigEndian(p, 4) else []
    case OrderCancel(id, q) => BigEndian(id, 8) + BigEndian(q, 4)
    case OrderDelete(id) => BigEndian(id, 8)
    case OrderReplace(id, n, q, p) => BigEndian(id, 8) + BigEndian(n, 8) + BigEndian(q, 4) + BigEndian(p, 4)
    case NonCrossTrade(id, side, q, p, k) =>
      BigEndian(id, 8) + [SideByte(side)] + BigEndian(q, 4) + stock + BigEndian(p, 4) + BigEndian(k, 8)
    case CrossTrade(q, p, k) => BigEndian(q, 8) + stock + BigEndian(p, 4) + BigEndian(k, 8) + ['O' as int]
    case BrokenTrade(k) => BigEndian(k, 8)
    case NotBook => []
  }

  ghost function TypeByte(m: ItchMessage, attribution: Bytes): Byte {
    (match m
     case AddOrder(_, _, _, _) => if attribution == [] then 'A' else 'F'
     case OrderExecuted(_, _, _, priced, _, _) => if priced then 'C' else 'E'
     case OrderCancel(_, _) => 'X'
     case OrderDelete(_) => 'D'
     case OrderReplace(_, _, _, _) => 'U'
     case NonCrossTrade(_, _, _, _, _) => 'P'
     case CrossTrade(_, _, _) => 'Q'
     case BrokenTrade(_) => 'B'
     case NotBook => 'Z') as int
  }

  /**
   A whole message: type, ten common bytes (locator, tracking number, time), body. An add order may end
   in a four-byte attribution; it is then of the attributed type.
   */
  ghost function Wire(m: ItchMessage, common: Bytes, stock: Bytes, attribution: Bytes): Bytes {
    [TypeByte(m, attribution)] + common + Body(m, stock) + if m.AddOrder? then attribution else []
  }

  lemma Part(a: Bytes, b: Bytes, c: Bytes)
    ensures (a + b + c)[|a|..|a| + |b|] == b
  {
  }

  lemma FieldU64(p: Bytes, a: Bytes, value: U64, c: Bytes)
    requires p == a + BigEndian(value, 8) + c
    ensures ReadU64(p, |a|) == value
  {
    Part(a, BigEndian(value, 8), c);
    ReadBack(p, |a|, value);
  }

  lemma FieldU32(p: Bytes, a: Bytes, value: U32, c: Bytes)
    requires p == a + BigEndian(value, 4) + c
    ensures ReadU32(p, |a|) == value
  {
    Part(a, BigEndian(value, 4), c);
    ReadBack(p, |a|, value);
  }

  lemma SideBack(side: OptionalSide)
    ensures SideOf(SideByte(side)) == side
  {
    if side.Some? {
      assert side.value.Buy? || side.value.Sell?;
    }
  }

  lemma AddRoundTrip(m: ItchMessage, common: Bytes, stock: Bytes, attribution: Bytes)
    requires |common| == 10 && |stock| == 8 && m.AddOrder? && (attribution == [] || |attribution| == 4)
    ensures WellSizedMessage(Wire(m, common, stock, attribution)) && Fields(Wire(m, common, stock, attribution)) == m
  {
    hide BigEndian, ReadU64, ReadU32, SideByte, SideOf;
    var p := Wire(m, common, stock, attribution);
    FieldU64(p, p[..11], m.id, p[19..]);
    assert p[19] == SideByte(m.side);
    SideBack(m.side);
    FieldU32(p, p[..20], m.quantity, p[24..]);
    FieldU32(p, p[..32], m.price, p[36..]);
  }

  lemma TradeRoundTrip(m: ItchMessage, common: Bytes, stock: Bytes, attribution: Bytes)
    requires |common| == 10 && |stock| == 8 && m.NonCrossTrade?
    ensures WellSizedMessage(Wire(m, common, stock, attribution)) && Fields(Wire(m, common, stock, attribution)) == m
  {
    hide BigEndian, ReadU64, ReadU32, SideByte, SideOf;
    var p := Wire(m, common, stock, attribution);
    FieldU64(p, p[..11], m.id, p[19..]);
    assert p[19] == SideByte(m.side);
    SideBack(m.side);
    FieldU32(p, p[..20], m.quantity, p[24..]);
    FieldU32(p, p[..32], m.price, p[36..]);
    FieldU64(p, p[..36], m.matchId, p[44..]);
  }

  lemma ExecutedRoundTrip(m: ItchMessage, common: Bytes, stock: Bytes, attribution: Bytes)
    requires |common| == 10 && |stock| == 8 && m.OrderExecuted? && (!m.priced ==> m.flag == 'Y' as int && m.price == 0)
    ensures WellSizedMessage(Wire(m, common, stock, attribution)) && Fields(Wire(m, common, stock, attribution)) == m
  {
    hide BigEndian, ReadU64, ReadU32;
    var p := Wire(m, common, stock, attribution);
    FieldU64(p, p[..11], m.id, p[19..]);
    FieldU32(p, p[..19], m.quantity, p[23..]);
    FieldU64(p, p[..23], m.matchId, p[31..]);
    if m.priced {
      FieldU32(p, p[..32], m.price, p[36..]);
    }
  }

  lemma ReplaceRoundTrip(m: ItchMessage, common: Bytes, stock: Bytes, attribution: Bytes)
    requires |common| == 10 && |stock| == 8 && m.OrderReplace?
    ensures WellSizedMessage(Wire(m, common, stock, attribution)) && Fields(Wire(m, common, stock, attribution)) == m
  {
    hide BigEndian, ReadU64, ReadU32;
    var p := Wire(m, common, stock, attribution);
    FieldU64(p, p[..11], m.id, p[19..]);
    FieldU64(p, p[..19], m.newId, p[27..]);
    FieldU32(p, p[..27], m.quantity, p[31..]);
    FieldU32(p, p[..31], m.price, p[35..]);
  }

  lemma CancelRoundTrip(m: ItchMessage, common: Bytes, stock: Bytes, attribution: Bytes)
    requires |common| == 10 && (m.OrderCancel? || m.OrderDelete?)
    ensures WellSizedMessage(Wire(m, common, stock, attribution)) && Fields(Wire(m, common, stock, attribution)) == m
  {
    hide BigEndian, ReadU64, ReadU32;
    var p := Wire(m, common, stock, attribution);
    FieldU64(p, p[..11], m.id, p[19..]);
    if m.OrderCancel? {
      FieldU32(p, p[..19], m.quantity, p[23..]);
    }
  }

  lemma CrossRoundTrip(m: ItchMessage, common: Bytes, stock: Bytes, attribution: Bytes)
    requires |common| == 10 && |stock| == 8 && m.CrossTrade?
    ensures WellSizedMessage(Wire(m, common, stock, attribution)) && Fields(Wire(m, common, stock, attribution)) == m
  {
    hide BigEndian, ReadU64, ReadU32;
    var p := Wire(m, common, stock, attribution);
    FieldU64(p, p[..11], m.crossed, p[19..]);
    FieldU32(p, p[..27], m.price, p[31..]);
    FieldU64(p, p[..31], m.matchId, p[39..]);
  }

  lemma BrokenRoundTrip(m: ItchMessage, common: Bytes, stock: Bytes, attribution: Bytes)
    requires |common| == 10 && m.BrokenTrade?
    ensures WellSizedMessage(Wire(m, common, stock, attribution)) && Fields(Wire(m, common, stock, attribution)) == m
  {
    hide BigEndian, ReadU64, ReadU32;
    var p := Wire(m, common, stock, attribution);
    FieldU64(p, p[..11], m.matchId, p[19..]);
  }

  /** Every message the adapter acts on is read back from its wire form, whatever the other fields. */
  lemma WireRoundTrip(m: ItchMessage, common: Bytes, stock: Bytes, attribution: Bytes)
    requires |common| == 10 && |stock| == 8 && !m.NotBook? && (attribution == [] || |attribution| == 4)
    requires m.OrderExecuted? && !m.priced ==> m.flag == 'Y' as int && m.price == 0
    ensures WellSizedMessage(Wire(m, common, stock, attribution)) && Fields(Wire(m, common, stock, attribution)) == m
  {
    hide WellSizedMessage, Wire, Fields;
    match m {
      case AddOrder(_, _, _, _) => AddRoundTrip(m, common, stock, attribution);
      case NonCrossTrade(_, _, _, _, _) => TradeRoundTrip(m, common, stock, attribution);
      case OrderExecuted(_, _, _, _, _, _) => ExecutedRoundTrip(m, common, stock, attribution);
      case OrderCancel(_, _) => CancelRoundTrip(m, common, stock, attribution);
      case OrderDelete(_) => CancelRoundTrip(m, common, stock, attribution);
      case OrderReplace(_, _, _, _) => ReplaceRoundTrip(m, common, stock, attribution);
      case CrossTrade(_, _, _) => CrossRoundTrip(m, common, stock, attribution);
      case BrokenTrade(_) => BrokenRoundTrip(m, common, stock, attribution);
    }
  }
}

/** Opening a packed file again: the header's text is parsed as the loader parses it, and every tensor comes back. */
module HeaderReader {
  import opened Codec
  import opened Collections
  import opened Octets
  import opened ShardSelect
  import opened ShardStream
  import opened Wrappers

  datatype Json = Num(n: nat) | Str(s: Octets) | Arr(items: seq<Json>) | Obj(members: seq<(Octets, Json)>)

  const QUOTE: octet := 34
  const COMMA: octet := 44
  const COLON: octet := 58
  const OPEN_LIST: octet := 91
  const BACKSLASH: octet := 92
  const CLOSE_LIST: octet := 93
  const OPEN_OBJECT: octet := 123
  const CLOSE_OBJECT: octet := 125

  // ---- the parser -------------------------------------------------------------------------------------------------

  /** The bytes up to the closing quote; escapes are not read. */
  function ParseString(b: Octets): (r: Read<Octets>)
    ensures r.Got? ==> |r.rest| < |b|
  {
    if b == [] || b[0] == BACKSLASH then Failed
    else if b[0] == QUOTE then Got([], b[1..])
    else
      var (s, rest) :- ParseString(b[1..]);
      Got([b[0]] + s, rest)
  }

  /** The digits `b` starts with. */
  function LeadingDigits(b: Octets): (d: Octets)
    ensures |d| <= |b| && AllDigits(d)
  {
    if b == [] || !IsDigit(b[0]) then [] else [b[0]] + LeadingDigits(b[1..])
  }

  function ParseNumber(b: Octets): (r: Read<nat>)
    ensures r.Got? ==> |r.rest| < |b|
  {
    var d := LeadingDigits(b);
    if d == [] then Failed else Got(ValueOf(d), b[|d|..])
  }

  function ParseValue(b: Octets): (r: Read<Json>)
    ensures r.Got? ==> |r.rest| < |b|
    decreases |b|, 1
  {
    if b == [] then Failed
    else if b[0] == QUOTE then
      var (s, rest) :- ParseString(b[1..]);
      Got(Str(s), rest)
    else if b[0] == OPEN_OBJECT then
      if |b| > 1 && b[1] == CLOSE_OBJECT then Got(Obj([]), b[2..])
      else
        var (members, rest) :- ParseMembers(b[1..]);
        Got(Obj(members), rest)
    else if b[0] == OPEN_LIST then
      if |b| > 1 && b[1] == CLOSE_LIST then Got(Arr([]), b[2..])
      else
        var (items, rest) :- ParseItems(b[1..]);
        Got(Arr(items), rest)
    else
      var (n, rest) :- ParseNumber(b);
      Got(Num(n), rest)
  }

  /** Values separated by commas, up to the closing bracket. */
  function ParseItems(b: Octets): (r: Read<seq<Json>>)
    ensures r.Got? ==> |r.rest| < |b|
    decreases |b|, 2
  {
    var (v, b1) :- ParseValue(b);
    if b1 == [] then Failed
    else if b1[0] == CLOSE_LIST then Got([v], b1[1..])
    else if b1[0] == COMMA then
      var (more, rest) :- ParseItems(b1[1..]);
      Got([v] + more, rest)
    else Failed
  }

  /** Keys and values separated by commas, up to the closing brace; a key that comes again replaces its value. */
  function ParseMembers(b: Octets): (r: Read<seq<(Octets, Json)>>)
    ensures r.Got? ==> |r.rest| < |b|
    decreases |b|, 2
  {
    var (raw, rest) :- ParseRaw(b);
    Got(Pushed([], raw), rest)
  }

  function ParseRaw(b: Octets): (r: Read<seq<(Octets, Json)>>)
    ensures r.Got? ==> |r.rest| < |b|
    decreases |b|, 1
  {
    if b == [] || b[0] != QUOTE then Failed
    else
      var (key, b1) :- ParseString(b[1..]);
      if b1 == [] || b1[0] != COLON then Failed
      else
        var (v, b2) :- ParseValue(b1[1..]);
        if b2 == [] then Failed
        else if b2[0] == CLOSE_OBJECT then Got([(key, v)], b2[1..])
        else if b2[0] == COMMA then
          var (more, rest) :- ParseRaw(b2[1..]);
          Got([(key, v)] + more, rest)
        else Failed
  }

  /** Where the key stands, or the length. */
  function Slot(members: seq<(Octets, Json)>, key: Octets): (i: nat)
    ensures i <= |members|
    ensures i < |members| ==> members[i].0 == key
    ensures forall j :: 0 <= j < i ==> members[j].0 != key
  {
    if members == [] || members[0].0 == key then 0 else 1 + Slot(members[1..], key)
  }

  function Push(members: seq<(Octets, Json)>, m: (Octets, Json)): seq<(Octets, Json)> {
    var i := Slot(members, m.0);
    if i < |members| then members[i := m] else members + [m]
  }

  function Pushed(members: seq<(Octets, Json)>, raw: seq<(Octets, Json)>): seq<(Octets, Json)>
    decreases |raw|
  {
    if raw == [] then members else Pushed(Push(members, raw[0]), raw[1..])
  }

  function Member(v: Json, key: Octets): Option<Json> {
    if v.Obj? && Slot(v.members, key) < |v.members| then Some(v.members[Slot(v.members, key)].1) else None
  }

  // ---- the loader -------------------------------------------------------------------------------------------------

  /** `dtype`, `shape`, `data_offsets`, `__metadata__` */
  const DTYPE: Octets := [100, 116, 121, 112, 101]
  const SHAPE: Octets := [115, 104, 97, 112, 101]
  const DATA_OFFSETS: Octets := [100, 97, 116, 97, 95, 111, 102, 102, 115, 101, 116, 115]
  const METADATA: Octets := [95, 95, 109, 101, 116, 97, 100, 97, 116, 97, 95, 95]

  /** A number, or nought for anything else. */
  function Natural(v: Json): nat {
    if v.Num? then v.n else 0
  }

  function Naturals(items: seq<Json>): seq<nat> {
    seq(|items|, i requires 0 <= i < |items| => Natural(items[i]))
  }

  function At(items: seq<Json>, i: nat): nat {
    if i < |items| then Natural(items[i]) else 0
  }

  /** What one member of the header stands for, in a file of these bytes whose payload starts at `start`. */
  function TensorOf(content: Octets, start: nat, name: Octets, v: Json): Option<Tensor> {
    match (Member(v, DTYPE), Member(v, DATA_OFFSETS), Member(v, SHAPE))
    case (Some(Str(dtype)), Some(Arr(offsets)), Some(Arr(shape))) =>
      var lo, hi := start + At(offsets, 0), start + At(offsets, 1);
      if lo <= hi <= |content| then Some(Tensor(name, dtype, Naturals(shape), content[lo..hi])) else None
    case _ => None
  }

  function TensorsOf(content: Octets, start: nat, members: seq<(Octets, Json)>): Option<seq<Tensor>> {
    if members == [] then Some([])
    else if members[0].0 == METADATA then TensorsOf(content, start, members[1..])
    else
      match (TensorOf(content, start, members[0].0, members[0].1), TensorsOf(content, start, members[1..]))
      case (Some(t), Some(more)) => Some([t] + more)
      case _ => None
  }

  /** Opening a file: the header's length, the header, then each tensor at its offsets. */
  function OpenFile(content: Octets): Option<seq<Tensor>> {
    match ReadU64(content)
    case Failed => None
    case Got(n, rest) =>
      if |rest| < n then None
      else
        match ParseValue(rest[..n])
        case Got(Obj(members), _) => TensorsOf(content, 8 + n, members)
        case _ => None
  }

  // ---- strings and numbers read back -----------------------------------------------------------------------------

  /** Free of quotes and backslashes: written as it is, read as it is. */
  ghost predicate Plain(s: Octets) {
    forall i :: 0 <= i < |s| ==> s[i] != QUOTE && s[i] != BACKSLASH
  }

  lemma ConsSplits(a: octet, s: Octets, rest: Octets)
    ensures ([a] + s) + rest == [a] + (s + rest)
    ensures ([a] + s)[0] == a && ([a] + s)[1..] == s
  {
  }

  lemma {:induction false} StringReads(s: Octets, rest: Octets)
    requires Plain(s)
    ensures ParseString(s + ([QUOTE] + rest)) == Got(s, rest)
  {
    ConsSplits(QUOTE, rest, []);
    if s == [] {
      assert s + ([QUOTE] + rest) == [QUOTE] + rest;
    } else {
      assert s == [s[0]] + s[1..];
      ConsSplits(s[0], s[1..], [QUOTE] + rest);
      ConsSplits(s[0], s[1..] + ([QUOTE] + rest), []);
      StringReads(s[1..], rest);
    }
  }

  ghost predicate EndsNumber(rest: Octets) {
    rest == [] || !IsDigit(rest[0])
  }

  lemma {:induction false} DigitsRead(d: Octets, rest: Octets)
    requires AllDigits(d) && EndsNumber(rest)
    ensures LeadingDigits(d + rest) == d
  {
    if d == [] {
      assert d + rest == rest;
    } else {
      assert d == [d[0]] + d[1..];
      ConsSplits(d[0], d[1..], rest);
      ConsSplits(d[0], d[1..] + rest, []);
      DigitsRead(d[1..], rest);
    }
  }

  lemma NumberReads(n: nat, rest: Octets)
    requires EndsNumber(rest)
    ensures ParseValue(Decimal(n) + rest) == Got(Num(n), rest)
  {
    var d := Decimal(n);
    DigitsRead(d, rest);
    DecimalValue(n);
    assert IsDigit(d[0]) && (d + rest)[0] == d[0] && (d + rest)[|d|..] == rest;
    hide Decimal, LeadingDigits, ValueOf, ParseMembers, ParseItems, ParseString;
  }

  // ---- lists of numbers ---------------------------------------------------------------------------------------------

  function Nums(ns: seq<nat>): (v: seq<Json>)
    ensures |v| == |ns|
  {
    seq(|ns|, i requires 0 <= i < |ns| => Num(ns[i]))
  }

  /** The numbers separated by commas, first one first. */
  function ListBytes(ns: seq<nat>): Octets {
    if ns == [] then []
    else if |ns| == 1 then Decimal(ns[0])
    else Decimal(ns[0]) + ([COMMA] + ListBytes(ns[1..]))
  }

  lemma {:induction false} ListSnoc(ns: seq<nat>, x: nat)
    requires ns != []
    ensures ListBytes(ns + [x]) == (ListBytes(ns) + [COMMA]) + Decimal(x)
  {
    var all := ns + [x];
    if |ns| == 1 {
      assert all[0] == ns[0] && all[1..] == [x];
      Associate(Decimal(ns[0]), [COMMA], Decimal(x));
    } else {
      assert all[0] == ns[0] && all[1..] == ns[1..] + [x];
      ListSnoc(ns[1..], x);
      hide Decimal, ListBytes;
      SnocStep(Decimal(ns[0]), ListBytes(ns[1..]), Decimal(x));
    }
  }

  lemma SnocStep(a: Octets, b: Octets, c: Octets)
    ensures a + ([COMMA] + ((b + [COMMA]) + c)) == ((a + ([COMMA] + b)) + [COMMA]) + c
  {
    Associate(b, [COMMA], c);
    Associate([COMMA], b, [COMMA] + c);
    Associate(a, [COMMA] + b, [COMMA] + c);
    Associate(a + ([COMMA] + b), [COMMA], c);
  }

  lemma {:induction false} ShapeIsList(shape: seq<nat>)
    ensures ShapeBytes(shape) == ListBytes(shape)
  {
    if |shape| > 1 {
      var front, x := shape[..|shape| - 1], shape[|shape| - 1];
      ShapeIsList(front);
      ListSnoc(front, x);
      assert shape == front + [x];
    } else if |shape| == 1 {
      assert shape[..0] == [];
      assert ShapeBytes(shape) == Decimal(shape[0]);
    }
  }

  lemma ItemsUnfold(b: Octets, v: Json, b1: Octets)
    requires ParseValue(b) == Got(v, b1) && b1 != []
    ensures b1[0] == CLOSE_LIST ==> ParseItems(b) == Got([v], b1[1..])
    ensures b1[0] == COMMA && ParseItems(b1[1..]).Got? ==>
              ParseItems(b) == Got([v] + ParseItems(b1[1..]).value, ParseItems(b1[1..]).rest)
  {
    hide ParseValue;
  }

  lemma ListCons(ns: seq<nat>)
    requires |ns| > 1
    ensures ListBytes(ns) == Decimal(ns[0]) + ([COMMA] + ListBytes(ns[1..]))
  {
    hide Decimal;
  }

  lemma NumsCons(ns: seq<nat>)
    requires ns != []
    ensures Nums(ns) == [Num(ns[0])] + Nums(ns[1..])
  {
  }

  lemma {:induction false} ItemsRead(ns: seq<nat>, rest: Octets)
    requires ns != []
    ensures ParseItems(ListBytes(ns) + ([CLOSE_LIST] + rest)) == Got(Nums(ns), rest)
  {
    var close := [CLOSE_LIST] + rest;
    hide ParseItems, ParseValue, Decimal;
    ConsSplits(CLOSE_LIST, rest, []);
    if |ns| == 1 {
      NumberReads(ns[0], close);
      ItemsUnfold(Decimal(ns[0]) + close, Num(ns[0]), close);
      assert Nums(ns) == [Num(ns[0])];
    } else {
      hide ListBytes, Nums;
      var more := ListBytes(ns[1..]) + close;
      ListCons(ns);
      NumsCons(ns);
      ConsSplits(COMMA, more, []);
      ConsSplits(COMMA, ListBytes(ns[1..]), close);
      NumberReads(ns[0], [COMMA] + more);
      ItemsRead(ns[1..], rest);
      ItemsUnfold(Decimal(ns[0]) + ([COMMA] + more), Num(ns[0]), [COMMA] + more);
      Associate(Decimal(ns[0]), [COMMA] + ListBytes(ns[1..]), close);
    }
  }

  lemma DigitNotClose(n: nat, rest: Octets)
    ensures Decimal(n) + rest != [] && (Decimal(n) + rest)[0] != CLOSE_LIST
  {
    assert IsDigit(Decimal(n)[0]);
  }

  lemma ListStartsWithDigit(ns: seq<nat>, rest: Octets)
    requires ns != []
    ensures ListBytes(ns) + rest != [] && (ListBytes(ns) + rest)[0] != CLOSE_LIST
  {
    DigitNotClose(ns[0], []);
    hide Decimal;
    assert ListBytes(ns)[0] == Decimal(ns[0])[0];
  }

  lemma ListReads(ns: seq<nat>, rest: Octets)
    ensures ParseValue([OPEN_LIST] + (ListBytes(ns) + ([CLOSE_LIST] + rest))) == Got(Arr(Nums(ns)), rest)
  {
    var inner := ListBytes(ns) + ([CLOSE_LIST] + rest);
    ConsSplits(OPEN_LIST, inner, []);
    ConsSplits(CLOSE_LIST, rest, []);
    if ns == [] {
      assert inner == [CLOSE_LIST] + rest;
      assert ([OPEN_LIST] + inner)[2..] == rest;
      assert Nums(ns) == [];
    } else {
      ListStartsWithDigit(ns, [CLOSE_LIST] + rest);
      ItemsRead(ns, rest);
      hide ListBytes, ParseItems, ParseMembers, ParseString, ParseNumber;
      assert ([OPEN_LIST] + inner)[1] == inner[0];
    }
  }

  // ---- members ---------------------------------------------------------------------------------------------------

  /** `"key":value` and what follows. */
  function MemberThen(key: Octets, value: Octets, rest: Octets): Octets {
    [QUOTE] + (key + ([QUOTE] + ([COLON] + (value + rest))))
  }

  /** The value is read, whatever follows. */
  ghost predicate Reads(value: Octets, v: Json, rest: Octets) {
    ParseValue(value + rest) == Got(v, rest)
  }

  lemma KeyReads(key: Octets, value: Octets, rest: Octets)
    requires Plain(key)
    ensures var b := MemberThen(key, value, rest);
            b != [] && b[0] == QUOTE && ParseString(b[1..]) == Got(key, [COLON] + (value + rest))
  {
    hide ParseString;
    StringReads(key, [COLON] + (value + rest));
    ConsSplits(QUOTE, key + ([QUOTE] + ([COLON] + (value + rest))), []);
  }

  lemma RawUnfolds(b: Octets, key: Octets, b1: Octets, v: Json, b2: Octets)
    requires b != [] && b[0] == QUOTE && ParseString(b[1..]) == Got(key, b1)
    requires b1 != [] && b1[0] == COLON && ParseValue(b1[1..]) == Got(v, b2) && b2 != []
    ensures b2[0] == CLOSE_OBJECT ==> ParseRaw(b) == Got([(key, v)], b2[1..])
    ensures b2[0] == COMMA && ParseRaw(b2[1..]).Got? ==>
              ParseRaw(b) == Got([(key, v)] + ParseRaw(b2[1..]).value, ParseRaw(b2[1..]).rest)
  {
    hide ParseString, ParseValue;
  }

  lemma LastMemberReads(key: Octets, value: Octets, v: Json, rest: Octets)
    requires Plain(key) && Reads(value, v, [CLOSE_OBJECT] + rest)
    ensures ParseRaw(MemberThen(key, value, [CLOSE_OBJECT] + rest)) == Got([(key, v)], rest)
  {
    hide ParseRaw, ParseValue, ParseString, MemberThen;
    var tail := [CLOSE_OBJECT] + rest;
    KeyReads(key, value, tail);
    ConsSplits(COLON, value + tail, []);
    ConsSplits(CLOSE_OBJECT, rest, []);
    RawUnfolds(MemberThen(key, value, tail), key, [COLON] + (value + tail), v, tail);
  }

  lemma MemberReads(key: Octets, value: Octets, v: Json, next: Octets, more: seq<(Octets, Json)>, rest: Octets)
    requires Plain(key) && Reads(value, v, [COMMA] + next) && ParseRaw(next) == Got(more, rest)
    ensures ParseRaw(MemberThen(key, value, [COMMA] + next)) == Got([(key, v)] + more, rest)
  {
    hide ParseRaw, ParseValue, ParseString, MemberThen;
    var tail := [COMMA] + next;
    KeyReads(key, value, tail);
    ConsSplits(COLON, value + tail, []);
    ConsSplits(COMMA, next, []);
    RawUnfolds(MemberThen(key, value, tail), key, [COLON] + (value + tail), v, tail);
  }

  // ---- a key that comes once keeps its value ------------------------------------------------------------------------

  ghost predicate KeysDistinct(raw: seq<(Octets, Json)>) {
    forall i, j :: 0 <= i < j < |raw| ==> raw[i].0 != raw[j].0
  }

  lemma {:induction false} PushedDistinct(members: seq<(Octets, Json)>, raw: seq<(Octets, Json)>)
    requires KeysDistinct(members + raw)
    ensures Pushed(members, raw) == members + raw
    decreases |raw|
  {
    if raw == [] {
      assert members + raw == members;
    } else {
      NewKey(members, raw);
      assert (members + [raw[0]]) + raw[1..] == members + raw;
      PushedDistinct(members + [raw[0]], raw[1..]);
    }
  }

  lemma NewKey(members: seq<(Octets, Json)>, raw: seq<(Octets, Json)>)
    requires raw != [] && KeysDistinct(members + raw)
    ensures Push(members, raw[0]) == members + [raw[0]]
  {
    var all := members + raw;
    assert all[|members|] == raw[0];
    forall j | 0 <= j < |members| ensures members[j].0 != raw[0].0 {
      assert all[j] == members[j];
    }
  }

  /** Repeated keys leave fewer members than were written. */
  lemma {:induction false} PushedLength(members: seq<(Octets, Json)>, raw: seq<(Octets, Json)>)
    requires KeysDistinct(members)
    ensures |Pushed(members, raw)| <= |members| + |raw|
    ensures |Pushed(members, raw)| == |members| + |raw| ==> KeysDistinct(members + raw)
    decreases |raw|
  {
    hide KeysDistinct, Push;
    if raw == [] {
      assert members + raw == members;
    } else {
      PushKeepsDistinct(members, raw[0]);
      PushedLength(Push(members, raw[0]), raw[1..]);
      hide Pushed;
      if |Push(members, raw[0])| == |members| + 1 {
        OneFurther(members, raw);
      }
    }
  }

  lemma OneFurther(members: seq<(Octets, Json)>, raw: seq<(Octets, Json)>)
    requires raw != []
    ensures (members + [raw[0]]) + raw[1..] == members + raw
  {
  }

  lemma PushKeepsDistinct(members: seq<(Octets, Json)>, m: (Octets, Json))
    requires KeysDistinct(members)
    ensures KeysDistinct(Push(members, m)) && |members| <= |Push(members, m)| <= |members| + 1
    ensures |Push(members, m)| == |members| + 1 ==> Push(members, m) == members + [m]
  {
  }

  // ---- one entry ----------------------------------------------------------------------------------------------------

  function OffsetsBytes(lo: nat, hi: nat): Octets {
    [OPEN_LIST] + (ListBytes([lo, hi]) + [CLOSE_LIST])
  }

  function QuotedBytes(s: Octets): Octets {
    [QUOTE] + (s + [QUOTE])
  }

  function ShapeListBytes(shape: seq<nat>): Octets {
    [OPEN_LIST] + (ListBytes(shape) + [CLOSE_LIST])
  }

  /** The value of an entry, and what follows. */
  function ValueThen(t: Tensor, lo: nat, rest: Octets): Octets {
    [OPEN_OBJECT] + DtypeThen(t, lo, rest)
  }

  /** What the entry of tensor `t` says when its bytes start at `lo`. */
  function EntryValue(t: Tensor, lo: nat): Json {
    Obj([(DTYPE, Str(t.dtype))] + ([(SHAPE, Arr(Nums(t.shape)))] + [Offsets(t, lo)]))
  }

  lemma QuotedReads(s: Octets, rest: Octets)
    requires Plain(s)
    ensures Reads(QuotedBytes(s), Str(s), rest)
  {
    hide ParseString;
    StringReads(s, rest);
    Associate(s, [QUOTE], rest);
    ConsSplits(QUOTE, s + [QUOTE], rest);
    ConsSplits(QUOTE, s + ([QUOTE] + rest), []);
  }

  lemma NumbersRead(ns: seq<nat>, rest: Octets)
    ensures Reads([OPEN_LIST] + (ListBytes(ns) + [CLOSE_LIST]), Arr(Nums(ns)), rest)
  {
    hide ParseValue, ListBytes, Nums;
    ListReads(ns, rest);
    Associate(ListBytes(ns), [CLOSE_LIST], rest);
    ConsSplits(OPEN_LIST, ListBytes(ns) + [CLOSE_LIST], rest);
  }

  lemma KeysArePlain()
    ensures Plain(DTYPE) && Plain(SHAPE) && Plain(DATA_OFFSETS)
    ensures DTYPE != SHAPE && DTYPE != DATA_OFFSETS && SHAPE != DATA_OFFSETS
  {
    assert DTYPE[0] == 100 && SHAPE[0] == 115 && |DATA_OFFSETS| == 12;
  }

  function OffsetsThen(t: Tensor, lo: nat, rest: Octets): Octets {
    MemberThen(DATA_OFFSETS, OffsetsBytes(lo, lo + |t.data|), [CLOSE_OBJECT] + rest)
  }

  function ShapeThen(t: Tensor, lo: nat, rest: Octets): Octets {
    MemberThen(SHAPE, ShapeListBytes(t.shape), [COMMA] + OffsetsThen(t, lo, rest))
  }

  function DtypeThen(t: Tensor, lo: nat, rest: Octets): Octets {
    MemberThen(DTYPE, QuotedBytes(t.dtype), [COMMA] + ShapeThen(t, lo, rest))
  }

  function Offsets(t: Tensor, lo: nat): (Octets, Json) {
    (DATA_OFFSETS, Arr(Nums([lo, lo + |t.data|])))
  }

  lemma OffsetsRead(t: Tensor, lo: nat, rest: Octets)
    ensures ParseRaw(OffsetsThen(t, lo, rest)) == Got([Offsets(t, lo)], rest)
  {
    hide ParseRaw, MemberThen, Reads, ListBytes, Nums, Plain;
    KeysArePlain();
    NumbersRead([lo, lo + |t.data|], [CLOSE_OBJECT] + rest);
    LastMemberReads(DATA_OFFSETS, OffsetsBytes(lo, lo + |t.data|), Offsets(t, lo).1, rest);
  }

  lemma ShapeReads(t: Tensor, lo: nat, rest: Octets)
    ensures ParseRaw(ShapeThen(t, lo, rest)) == Got([(SHAPE, Arr(Nums(t.shape)))] + [Offsets(t, lo)], rest)
  {
    KeysArePlain();
    OffsetsRead(t, lo, rest);
    NumbersRead(t.shape, [COMMA] + OffsetsThen(t, lo, rest));
    hide ParseRaw, MemberThen, Reads, ListBytes, Nums, Plain, OffsetsThen;
    MemberReads(SHAPE, ShapeListBytes(t.shape), Arr(Nums(t.shape)), OffsetsThen(t, lo, rest), [Offsets(t, lo)], rest);
  }

  lemma EntryRawReads(t: Tensor, lo: nat, rest: Octets)
    requires Plain(t.dtype)
    ensures ParseRaw(DtypeThen(t, lo, rest)) == Got(EntryValue(t, lo).members, rest)
  {
    KeysArePlain();
    ShapeReads(t, lo, rest);
    QuotedReads(t.dtype, [COMMA] + ShapeThen(t, lo, rest));
    hide ParseRaw, MemberThen, Reads, Plain, QuotedBytes, ShapeThen, Offsets, Nums;
    MemberReads(DTYPE, QuotedBytes(t.dtype), Str(t.dtype), ShapeThen(t, lo, rest),
                [(SHAPE, Arr(Nums(t.shape)))] + [Offsets(t, lo)], rest);
  }

  lemma EntryValueReads(t: Tensor, lo: nat, rest: Octets)
    requires Plain(t.dtype)
    ensures ParseValue(ValueThen(t, lo, rest)) == Got(EntryValue(t, lo), rest)
  {
    EntryRawReads(t, lo, rest);
    EntryKeysDistinct(t, lo);
    PushedDistinct([], EntryValue(t, lo).members);
    assert [] + EntryValue(t, lo).members == EntryValue(t, lo).members;
    StartsWithKey(t, lo, rest);
    ConsSplits(OPEN_OBJECT, DtypeThen(t, lo, rest), []);
    ObjectReads([OPEN_OBJECT] + DtypeThen(t, lo, rest), EntryValue(t, lo).members, rest);
  }

  lemma ObjectReads(b: Octets, members: seq<(Octets, Json)>, rest: Octets)
    requires |b| > 1 && b[0] == OPEN_OBJECT && b[1] == QUOTE
    requires ParseRaw(b[1..]) == Got(members, rest) && Pushed([], members) == members
    ensures ParseValue(b) == Got(Obj(members), rest)
  {
    hide ParseRaw, Pushed;
  }

  lemma StartsWithKey(t: Tensor, lo: nat, rest: Octets)
    ensures DtypeThen(t, lo, rest) != [] && DtypeThen(t, lo, rest)[0] == QUOTE
    ensures ([OPEN_OBJECT] + DtypeThen(t, lo, rest))[1] == QUOTE
  {
    hide QuotedBytes, ShapeThen;
  }

  lemma EntryKeysDistinct(t: Tensor, lo: nat)
    ensures KeysDistinct([] + EntryValue(t, lo).members)
  {
    KeysArePlain();
    hide Plain;
  }

  // ---- the text of an entry -----------------------------------------------------------------------------------------

  /** An entry, and what follows. */
  function EntryThen(t: Tensor, lo: nat, rest: Octets): Octets {
    [QUOTE] + (t.name + ([QUOTE] + ([COLON] + ValueThen(t, lo, rest))))
  }

  lemma OpeningText(x: Octets)
    ensures [34, 58, 123, 34, 100, 116, 121, 112, 101, 34, 58, 34] + x
         == [QUOTE] + ([COLON] + ([OPEN_OBJECT] + ([QUOTE] + (DTYPE + ([QUOTE] + ([COLON] + ([QUOTE] + x)))))))
  {
  }

  lemma ShapeText(x: Octets)
    ensures [34, 44, 34, 115, 104, 97, 112, 101, 34, 58, 91] + x
         == [QUOTE] + ([COMMA] + ([QUOTE] + (SHAPE + ([QUOTE] + ([COLON] + ([OPEN_LIST] + x))))))
  {
  }

  lemma OffsetsText(x: Octets)
    ensures [93, 44, 34, 100, 97, 116, 97, 95, 111, 102, 102, 115, 101, 116, 115, 34, 58, 91] + x
         == [CLOSE_LIST] + ([COMMA] + ([QUOTE] + (DATA_OFFSETS + ([QUOTE] + ([COLON] + ([OPEN_LIST] + x))))))
  {
  }

  lemma ClosingText(x: Octets)
    ensures [93, 125] + x == [CLOSE_LIST] + ([CLOSE_OBJECT] + x)
  {
  }

  lemma ListThen(ns: seq<nat>, x: Octets)
    ensures ([OPEN_LIST] + (ListBytes(ns) + [CLOSE_LIST])) + x == [OPEN_LIST] + (ListBytes(ns) + ([CLOSE_LIST] + x))
  {
    hide ListBytes;
    ConsSplits(OPEN_LIST, ListBytes(ns) + [CLOSE_LIST], x);
    Associate(ListBytes(ns), [CLOSE_LIST], x);
  }

  lemma QuotedThen(s: Octets, x: Octets)
    ensures QuotedBytes(s) + x == [QUOTE] + (s + ([QUOTE] + x))
  {
    ConsSplits(QUOTE, s + [QUOTE], x);
    Associate(s, [QUOTE], x);
  }

  lemma PairThen(lo: nat, hi: nat, x: Octets)
    ensures ListBytes([lo, hi]) + x == Decimal(lo) + ([COMMA] + (Decimal(hi) + x))
  {
    assert [lo, hi][1..] == [hi];
    hide Decimal;
    Associate(Decimal(lo), [COMMA] + Decimal(hi), x);
    Associate([COMMA], Decimal(hi), x);
  }

  lemma OffsetsThenText(t: Tensor, lo: nat, rest: Octets)
    ensures [CLOSE_LIST] + ([COMMA] + OffsetsThen(t, lo, rest))
         == [93, 44, 34, 100, 97, 116, 97, 95, 111, 102, 102, 115, 101, 116, 115, 34, 58, 91]
            + (Decimal(lo) + ([COMMA] + (Decimal(lo + |t.data|) + ([93, 125] + rest))))
  {
    hide Decimal, ListBytes;
    var x := [CLOSE_LIST] + ([CLOSE_OBJECT] + rest);
    ClosingText(rest);
    PairThen(lo, lo + |t.data|, x);
    ListThen([lo, lo + |t.data|], [CLOSE_OBJECT] + rest);
    OffsetsText(ListBytes([lo, lo + |t.data|]) + x);
  }

  lemma ShapeThenText(t: Tensor, lo: nat, rest: Octets)
    ensures [QUOTE] + ([COMMA] + ShapeThen(t, lo, rest))
         == [34, 44, 34, 115, 104, 97, 112, 101, 34, 58, 91]
            + (ShapeBytes(t.shape) + ([CLOSE_LIST] + ([COMMA] + OffsetsThen(t, lo, rest))))
  {
    ShapeIsList(t.shape);
    hide ListBytes, ShapeBytes, OffsetsThen;
    var x := [COMMA] + OffsetsThen(t, lo, rest);
    ListThen(t.shape, x);
    ShapeText(ListBytes(t.shape) + ([CLOSE_LIST] + x));
  }

  lemma EntryThenText(t: Tensor, lo: nat, rest: Octets)
    ensures EntryThen(t, lo, rest)
         == [34] + (t.name + ([34, 58, 123, 34, 100, 116, 121, 112, 101, 34, 58, 34]
            + (t.dtype + ([QUOTE] + ([COMMA] + ShapeThen(t, lo, rest))))))
  {
    hide ShapeThen, QuotedBytes;
    var x := [COMMA] + ShapeThen(t, lo, rest);
    QuotedThen(t.dtype, x);
    OpeningText(t.dtype + ([QUOTE] + x));
  }

  /** The entry as it is built, read from the left. */
  lemma EntryBytesThen(t: Tensor, lo: nat, rest: Octets)
    ensures EntryBytes(t, lo) + rest == EntryThen(t, lo, rest)
  {
    EntryThenText(t, lo, rest);
    ShapeThenText(t, lo, rest);
    OffsetsThenText(t, lo, rest);
    hide Decimal, ShapeBytes, EntryThen, ShapeThen, OffsetsThen;
    var a1: Octets := [34, 58, 123, 34, 100, 116, 121, 112, 101, 34, 58, 34];
    var a2: Octets := [34, 44, 34, 115, 104, 97, 112, 101, 34, 58, 91];
    var a3: Octets := [93, 44, 34, 100, 97, 116, 97, 95, 111, 102, 102, 115, 101, 116, 115, 34, 58, 91];
    Regrouped([34], t.name, a1, t.dtype, a2, ShapeBytes(t.shape), a3, Decimal(lo), [44], Decimal(lo + |t.data|),
        [93, 125], rest);
  }

  lemma Regrouped(a: Octets, b: Octets, c: Octets, d: Octets, e: Octets, f: Octets, g: Octets, h: Octets, i: Octets,
                  j: Octets, k: Octets, x: Octets)
    ensures (a + b + c + d + e + f + g + h + i + j + k) + x
         == a + (b + (c + (d + (e + (f + (g + (h + (i + (j + (k + x))))))))))
  {
    Associate(a + b + c + d + e + f + g + h + i + j, k, x);
    Associate(a + b + c + d + e + f + g + h + i, j, k + x);
    Associate(a + b + c + d + e + f + g + h, i, j + (k + x));
    Associate(a + b + c + d + e + f + g, h, i + (j + (k + x)));
    Associate(a + b + c + d + e + f, g, h + (i + (j + (k + x))));
    Associate(a + b + c + d + e, f, g + (h + (i + (j + (k + x)))));
    Associate(a + b + c + d, e, f + (g + (h + (i + (j + (k + x))))));
    Associate(a + b + c, d, e + (f + (g + (h + (i + (j + (k + x)))))));
    Associate(a + b, c, d + (e + (f + (g + (h + (i + (j + (k + x))))))));
    Associate(a, b, c + (d + (e + (f + (g + (h + (i + (j + (k + x)))))))));
  }

  // ---- the header ---------------------------------------------------------------------------------------------------

  /** The entries from the first on, and what follows. */
  function EntriesThen(ts: seq<Tensor>, lo: nat, rest: Octets): Octets {
    if ts == [] then rest
    else if |ts| == 1 then EntryThen(ts[0], lo, rest)
    else EntryThen(ts[0], lo, [COMMA] + EntriesThen(ts[1..], lo + |ts[0].data|, rest))
  }

  lemma EntriesThenCons(t: Tensor, more: seq<Tensor>, lo: nat, rest: Octets)
    ensures EntriesThen([t], lo, rest) == EntryThen(t, lo, rest)
    ensures more != [] ==>
              EntriesThen([t] + more, lo, rest) == EntryThen(t, lo, [COMMA] + EntriesThen(more, lo + |t.data|, rest))
  {
    hide EntryThen;
    assert ([t] + more)[1..] == more;
  }

  lemma SinglePayload(t: Tensor)
    ensures Payload([t]) == t.data
  {
    assert [t][..0] == [] && Payload([]) == [];
  }

  lemma {:induction false} EntriesThenSnoc(ts: seq<Tensor>, t: Tensor, lo: nat, rest: Octets)
    requires ts != []
    ensures EntriesThen(ts + [t], lo, rest)
         == EntriesThen(ts, lo, [COMMA] + EntryThen(t, lo + |Payload(ts)|, rest))
  {
    hide EntryThen, EntriesThen, Payload;
    var first, more := ts[0], ts[1..];
    assert ts == [first] + more && ts + [t] == [first] + (more + [t]);
    PayloadFirst(ts);
    var last := [COMMA] + EntryThen(t, lo + |Payload(ts)|, rest);
    EntriesThenCons(first, more + [t], lo, rest);
    EntriesThenCons(first, more, lo, last);
    if more == [] {
      NoPayload();
      assert more + [t] == [t] && ts == [first];
      EntriesThenCons(t, [], lo + |first.data|, rest);
    } else {
      EntriesThenSnoc(more, t, lo + |first.data|, rest);
    }
  }

  lemma NoPayload()
    ensures Payload([]) == []
  {
  }

  lemma PayloadFirst(ts: seq<Tensor>)
    requires ts != []
    ensures |Payload(ts)| == |ts[0].data| + |Payload(ts[1..])|
  {
    hide Payload;
    assert ts == [ts[0]] + ts[1..];
    PayloadConcat([ts[0]], ts[1..]);
    SinglePayload(ts[0]);
  }

  lemma EntriesSnoc(front: seq<Tensor>, t: Tensor)
    ensures EntriesBytes(front + [t])
         == EntriesBytes(front) + (if front != [] then [COMMA] else []) + EntryBytes(t, |Payload(front)|)
    ensures EntriesBytes([]) == []
  {
    assert (front + [t])[..|front|] == front;
    hide EntryBytes;
  }

  lemma {:induction false} EntriesAre(ts: seq<Tensor>, rest: Octets)
    ensures EntriesBytes(ts) + rest == EntriesThen(ts, 0, rest)
  {
    if ts == [] {
      assert EntriesBytes(ts) + rest == rest;
    } else {
      hide EntryBytes, EntryThen, EntriesThen, EntriesBytes, Payload;
      var front, t := ts[..|ts| - 1], ts[|ts| - 1];
      assert ts == front + [t];
      EntriesSnoc(front, t);
      EntryBytesThen(t, |Payload(front)|, rest);
      if front == [] {
        OnlyEntry(t, rest);
      } else {
        forall more ensures EntriesBytes(front) + more == EntriesThen(front, 0, more) {
          EntriesAre(front, more);
        }
        LaterEntry(front, t, rest);
      }
    }
  }

  lemma OnlyEntry(t: Tensor, rest: Octets)
    ensures (([] + []) + EntryBytes(t, |Payload([])|)) + rest == EntriesThen([] + [t], 0, rest)
  {
    hide EntryBytes, EntryThen, EntriesThen;
    EntryBytesThen(t, 0, rest);
    EntriesThenCons(t, [], 0, rest);
    assert [] + [t] == [t] && ([] + []) + EntryBytes(t, 0) == EntryBytes(t, 0);
  }

  lemma LaterEntry(front: seq<Tensor>, t: Tensor, rest: Octets)
    requires front != []
    requires forall more :: EntriesBytes(front) + more == EntriesThen(front, 0, more)
    ensures ((EntriesBytes(front) + [COMMA]) + EntryBytes(t, |Payload(front)|)) + rest
            == EntriesThen(front + [t], 0, rest)
  {
    hide EntryBytes, EntryThen, EntriesThen, EntriesBytes, Payload;
    var lo := |Payload(front)|;
    EntryBytesThen(t, lo, rest);
    EntriesThenSnoc(front, t, 0, rest);
    Associate(EntriesBytes(front) + [COMMA], EntryBytes(t, lo), rest);
    Associate(EntriesBytes(front), [COMMA], EntryThen(t, lo, rest));
  }

  function RawOf(ts: seq<Tensor>, lo: nat): (raw: seq<(Octets, Json)>)
    ensures |raw| == |ts| && forall i :: 0 <= i < |ts| ==> raw[i].0 == ts[i].name
  {
    if ts == [] then [] else [(ts[0].name, EntryValue(ts[0], lo))] + RawOf(ts[1..], lo + |ts[0].data|)
  }

  /** Names and types are written between quotes as they are. */
  ghost predicate PlainTensors(ts: seq<Tensor>) {
    forall i :: 0 <= i < |ts| ==> Plain(ts[i].name) && Plain(ts[i].dtype)
  }

  lemma EntryKeyReads(t: Tensor, lo: nat, rest: Octets)
    requires Plain(t.name)
    ensures var b := EntryThen(t, lo, rest);
            b != [] && b[0] == QUOTE && ParseString(b[1..]) == Got(t.name, [COLON] + ValueThen(t, lo, rest))
  {
    hide ParseString, ValueThen;
    StringReads(t.name, [COLON] + ValueThen(t, lo, rest));
    ConsSplits(QUOTE, t.name + ([QUOTE] + ([COLON] + ValueThen(t, lo, rest))), []);
  }

  lemma EntryReads(t: Tensor, lo: nat, rest: Octets)
    requires Plain(t.name) && Plain(t.dtype) && rest != []
    ensures rest[0] == CLOSE_OBJECT ==>
            ParseRaw(EntryThen(t, lo, rest)) == Got([(t.name, EntryValue(t, lo))], rest[1..])
    ensures rest[0] == COMMA && ParseRaw(rest[1..]).Got? ==>
              ParseRaw(EntryThen(t, lo, rest))
              == Got([(t.name, EntryValue(t, lo))] + ParseRaw(rest[1..]).value, ParseRaw(rest[1..]).rest)
  {
    hide ParseRaw, ParseValue, ParseString, EntryThen, ValueThen, EntryValue, Plain;
    EntryKeyReads(t, lo, rest);
    EntryValueReads(t, lo, rest);
    ConsSplits(COLON, ValueThen(t, lo, rest), []);
    RawUnfolds(EntryThen(t, lo, rest), t.name, [COLON] + ValueThen(t, lo, rest), EntryValue(t, lo), rest);
  }

  lemma RawCons(t: Tensor, more: seq<Tensor>, lo: nat)
    ensures RawOf([t] + more, lo) == [(t.name, EntryValue(t, lo))] + RawOf(more, lo + |t.data|)
    ensures RawOf([], lo) == []
  {
    hide EntryValue;
    assert ([t] + more)[1..] == more;
  }

  lemma OnlyRaw(t: Tensor, lo: nat)
    ensures RawOf([t], lo) == [(t.name, EntryValue(t, lo))]
  {
    hide EntryValue;
    assert [t][1..] == [];
  }

  lemma LastEntryReads(t: Tensor, lo: nat, rest: Octets)
    requires Plain(t.name) && Plain(t.dtype)
    ensures ParseRaw(EntriesThen([t], lo, [CLOSE_OBJECT] + rest)) == Got(RawOf([t], lo), rest)
  {
    hide *;
    EntriesThenCons(t, [], lo, [CLOSE_OBJECT] + rest);
    OnlyRaw(t, lo);
    ConsSplits(CLOSE_OBJECT, rest, []);
    EntryReads(t, lo, [CLOSE_OBJECT] + rest);
  }

  lemma NextEntryReads(t: Tensor, more: seq<Tensor>, lo: nat, rest: Octets)
    requires Plain(t.name) && Plain(t.dtype) && more != []
    requires ParseRaw(EntriesThen(more, lo + |t.data|, [CLOSE_OBJECT] + rest)) == Got(RawOf(more, lo + |t.data|), rest)
    ensures ParseRaw(EntriesThen([t] + more, lo, [CLOSE_OBJECT] + rest)) == Got(RawOf([t] + more, lo), rest)
  {
    hide *;
    var next := EntriesThen(more, lo + |t.data|, [CLOSE_OBJECT] + rest);
    EntriesThenCons(t, more, lo, [CLOSE_OBJECT] + rest);
    RawCons(t, more, lo);
    ConsSplits(COMMA, next, []);
    EntryReads(t, lo, [COMMA] + next);
  }

  lemma FirstOf(ts: seq<Tensor>) returns (t: Tensor, more: seq<Tensor>)
    requires ts != [] && PlainTensors(ts)
    ensures ts == [t] + more && |more| < |ts| && (more == [] ==> ts == [t])
    ensures Plain(t.name) && Plain(t.dtype) && PlainTensors(more)
  {
    t, more := ts[0], ts[1..];
  }

  lemma {:induction false} EntriesRead(ts: seq<Tensor>, lo: nat, rest: Octets)
    requires ts != [] && PlainTensors(ts)
    ensures ParseRaw(EntriesThen(ts, lo, [CLOSE_OBJECT] + rest)) == Got(RawOf(ts, lo), rest)
    decreases |ts|
  {
    hide *;
    var t, more := FirstOf(ts);
    if more == [] {
      LastEntryReads(t, lo, rest);
    } else {
      EntriesRead(more, lo + |t.data|, rest);
      NextEntryReads(t, more, lo, rest);
    }
  }

  lemma EntriesStartQuoted(ts: seq<Tensor>, lo: nat, rest: Octets)
    requires ts != []
    ensures EntriesThen(ts, lo, rest) != [] && EntriesThen(ts, lo, rest)[0] == QUOTE
  {
    hide ValueThen;
  }

  lemma HeaderText(ts: seq<Tensor>)
    ensures Header(ts) == [OPEN_OBJECT] + EntriesThen(ts, 0, [CLOSE_OBJECT])
  {
    EntriesAre(ts, [CLOSE_OBJECT]);
    hide EntriesBytes, EntriesThen;
    Associate([OPEN_OBJECT], EntriesBytes(ts), [CLOSE_OBJECT]);
  }

  /** The header parses to one member for each tensor; a name that comes again keeps its first place and its last
      entry. */
  lemma HeaderReads(ts: seq<Tensor>)
    requires PlainTensors(ts)
    ensures ParseValue(Header(ts)) == Got(Obj(Pushed([], RawOf(ts, 0))), [])
  {
    HeaderText(ts);
    var entries := EntriesThen(ts, 0, [CLOSE_OBJECT]);
    ConsSplits(OPEN_OBJECT, entries, []);
    if ts == [] {
      assert Header(ts) == [OPEN_OBJECT, CLOSE_OBJECT] && Header(ts)[2..] == [];
    } else {
      EntriesStartQuoted(ts, 0, [CLOSE_OBJECT]);
      assert [CLOSE_OBJECT] + [] == [CLOSE_OBJECT];
      EntriesRead(ts, 0, []);
      hide ParseRaw, EntriesThen, RawOf, Pushed, PlainTensors;
      ObjectParses([OPEN_OBJECT] + entries, RawOf(ts, 0), []);
    }
  }

  lemma ObjectParses(b: Octets, raw: seq<(Octets, Json)>, rest: Octets)
    requires |b| > 1 && b[0] == OPEN_OBJECT && b[1] == QUOTE && ParseRaw(b[1..]) == Got(raw, rest)
    ensures ParseValue(b) == Got(Obj(Pushed([], raw)), rest)
  {
    hide ParseRaw, Pushed;
  }

  // ---- the file -----------------------------------------------------------------------------------------------------

  lemma Lookups(t: Tensor, lo: nat)
    ensures var v := EntryValue(t, lo);
            && Member(v, DTYPE) == Some(Str(t.dtype)) && Member(v, SHAPE) == Some(Arr(Nums(t.shape)))
            && Member(v, DATA_OFFSETS) == Some(Arr(Nums([lo, lo + |t.data|])))
  {
    KeysArePlain();
    hide Plain, Nums;
    var m := EntryValue(t, lo).members;
    assert m[0].0 == DTYPE && m[1].0 == SHAPE && m[2].0 == DATA_OFFSETS;
  }

  lemma TensorIsRead(content: Octets, start: nat, t: Tensor, lo: nat)
    requires start + lo + |t.data| <= |content| && content[start + lo..start + lo + |t.data|] == t.data
    ensures TensorOf(content, start, t.name, EntryValue(t, lo)) == Some(t)
  {
    Lookups(t, lo);
    hide Member, EntryValue;
    assert Naturals(Nums(t.shape)) == t.shape;
    assert At(Nums([lo, lo + |t.data|]), 0) == lo && At(Nums([lo, lo + |t.data|]), 1) == lo + |t.data|;
  }

  /** None of the names is the one the loader passes over. */
  ghost predicate NoMetadata(ts: seq<Tensor>) {
    forall i :: 0 <= i < |ts| ==> ts[i].name != METADATA
  }

  lemma NextOffset(ts: seq<Tensor>, k: nat)
    requires k < |ts|
    ensures |Payload(ts[..k + 1])| == |Payload(ts[..k])| + |ts[k].data|
    ensures ts[k..] == [ts[k]] + ts[k + 1..]
  {
    assert ts[..k + 1] == ts[..k] + [ts[k]];
    PayloadSnoc(ts[..k], ts[k]);
  }

  lemma {:induction false} TensorsAreRead(ts: seq<Tensor>, k: nat)
    requires SmallHeader(ts) && NoMetadata(ts) && k <= |ts|
    ensures TensorsOf(Content(ts), 8 + |Header(ts)|, RawOf(ts[k..], |Payload(ts[..k])|)) == Some(ts[k..])
    decreases |ts| - k
  {
    hide SmallHeader, Content, Header, Payload, TensorOf, EntryValue;
    if k < |ts| {
      TensorsAreRead(ts, k + 1);
      NextOffset(ts, k);
      TensorAtItsOffsets(ts, k);
      TensorIsRead(Content(ts), 8 + |Header(ts)|, ts[k], |Payload(ts[..k])|);
      RawCons(ts[k], ts[k + 1..], |Payload(ts[..k])|);
      hide RawOf;
    }
  }

  ghost predicate NamesDistinct(ts: seq<Tensor>) {
    forall i, j :: 0 <= i < j < |ts| ==> ts[i].name != ts[j].name
  }

  lemma ContentSplits(ts: seq<Tensor>)
    requires SmallHeader(ts)
    ensures ReadU64(Content(ts)) == Got(|Header(ts)|, Header(ts) + Payload(ts))
  {
    hide Header, Payload, ReadU64, U64;
    ReadsU64(|Header(ts)|, Header(ts) + Payload(ts));
    Associate(U64(|Header(ts)|), Header(ts), Payload(ts));
  }

  lemma FrontOf(a: Octets, b: Octets)
    ensures (a + b)[..|a|] == a
  {
  }

  lemma OpenIsTensors(ts: seq<Tensor>)
    requires SmallHeader(ts) && PlainTensors(ts)
    ensures OpenFile(Content(ts)) == TensorsOf(Content(ts), 8 + |Header(ts)|, Pushed([], RawOf(ts, 0)))
  {
    hide Header, Payload, RawOf, Pushed, TensorsOf, ParseValue, ReadU64, U64, PlainTensors, Content, SmallHeader;
    HeaderReads(ts);
    ContentSplits(ts);
    FrontOf(Header(ts), Payload(ts));
  }

  lemma EmptyFirst(raw: seq<(Octets, Json)>)
    ensures [] + raw == raw
  {
  }

  lemma DistinctRaw(ts: seq<Tensor>)
    ensures KeysDistinct([] + RawOf(ts, 0)) <==> NamesDistinct(ts)
  {
    hide RawOf;
    EmptyFirst(RawOf(ts, 0));
  }

  lemma {:induction false} TensorsLength(content: Octets, start: nat, members: seq<(Octets, Json)>)
    requires TensorsOf(content, start, members).Some?
    ensures |TensorsOf(content, start, members).value| <= |members|
    ensures |TensorsOf(content, start, members).value| == |members| ==>
              forall i :: 0 <= i < |members| ==> members[i].0 != METADATA
  {
    hide TensorOf;
    if members != [] {
      TensorsLength(content, start, members[1..]);
      assert members == [members[0]] + members[1..];
    }
  }

  /** A packed file with plain names opens as exactly the tensors packed into it, with their names, types, shapes and
      bytes, if and only if no name comes twice and none is the reserved one. */
  lemma FileReadsBackIff(ts: seq<Tensor>)
    requires SmallHeader(ts) && PlainTensors(ts)
    ensures OpenFile(Content(ts)) == Some(ts) <==> NamesDistinct(ts) && NoMetadata(ts)
  {
    hide SmallHeader, Content, Header, PlainTensors, TensorsOf, RawOf, OpenFile, Payload;
    OpenIsTensors(ts);
    DistinctRaw(ts);
    if NamesDistinct(ts) && NoMetadata(ts) {
      hide NamesDistinct, NoMetadata;
      PushedDistinct([], RawOf(ts, 0));
      TensorsAreRead(ts, 0);
      assert [] + RawOf(ts, 0) == RawOf(ts, 0) && ts[0..] == ts && ts[..0] == [];
      NoPayload();
    }
    if OpenFile(Content(ts)) == Some(ts) {
      AllAreThere(ts, ts);
    }
  }

  lemma AllMembersKept(raw: seq<(Octets, Json)>, n: nat)
    requires |Pushed([], raw)| >= n == |raw|
    ensures KeysDistinct([] + raw) && Pushed([], raw) == raw
  {
    assert KeysDistinct([]);
    hide KeysDistinct, Pushed;
    PushedLength([], raw);
    PushedDistinct([], raw);
    EmptyFirst(raw);
  }

  lemma AllAreThere(ts: seq<Tensor>, got: seq<Tensor>)
    requires SmallHeader(ts) && |got| == |ts|
    requires TensorsOf(Content(ts), 8 + |Header(ts)|, Pushed([], RawOf(ts, 0))) == Some(got)
    ensures NamesDistinct(ts) && NoMetadata(ts)
  {
    hide SmallHeader, Content, Header, TensorsOf, RawOf, NamesDistinct, KeysDistinct, Pushed;
    TensorsLength(Content(ts), 8 + |Header(ts)|, Pushed([], RawOf(ts, 0)));
    AllMembersKept(RawOf(ts, 0), |ts|);
    DistinctRaw(ts);
  }

  /** A file never opens as more tensors than were packed, and as fewer when a name comes again or is passed over. */
  lemma OpensAsNoMore(ts: seq<Tensor>)
    requires SmallHeader(ts) && PlainTensors(ts) && OpenFile(Content(ts)).Some?
    ensures |OpenFile(Content(ts)).value| <= |ts|
    ensures |OpenFile(Content(ts)).value| == |ts| ==> NamesDistinct(ts) && NoMetadata(ts)
  {
    hide SmallHeader, Content, Header, PlainTensors, TensorsOf, OpenFile, Payload, RawOf, NamesDistinct, NoMetadata;
    OpenIsTensors(ts);
    var got := OpenFile(Content(ts)).value;
    TensorsLength(Content(ts), 8 + |Header(ts)|, Pushed([], RawOf(ts, 0)));
    assert KeysDistinct([]);
    PushedLength([], RawOf(ts, 0));
    if |got| == |ts| {
      AllAreThere(ts, got);
    }
  }

  // ---- the offsets, as they are read --------------------------------------------------------------------------------

  /** Each tensor's numbers in the header: the first starts at nought, each where the one before ends, the last ends
      with the payload, and between them in the payload are the tensor's bytes. */
  lemma OffsetsTilePayload(ts: seq<Tensor>, i: nat)
    requires SmallHeader(ts) && PlainTensors(ts) && NamesDistinct(ts) && i < |ts|
    ensures ParseValue(Header(ts)).Got? && ParseValue(Header(ts)).value.Obj?
    ensures var m := ParseValue(Header(ts)).value.members;
            |m| == |ts| && m[i].0 == ts[i].name && OffsetsOf(m[i].1).Some?
    ensures var (lo, hi) := OffsetsOf(ParseValue(Header(ts)).value.members[i].1).value; var base := 8 + |Header(ts)|;
            && lo == |Payload(ts[..i])| && hi == |Payload(ts[..i + 1])| && base + lo <= base + hi <= |Content(ts)|
            && Content(ts)[base + lo..base + hi] == ts[i].data
  {
    hide SmallHeader, Content, Header, Payload, PlainTensors, ParseValue, OffsetsOf, NamesDistinct, KeysDistinct,
        Pushed;
    HeaderReads(ts);
    DistinctRaw(ts);
    PushedDistinct([], RawOf(ts, 0));
    EmptyFirst(RawOf(ts, 0));
    RawAt(ts, i);
    hide RawOf;
    OffsetsAre(ts[i], |Payload(ts[..i])|);
    NextOffset(ts, i);
    TensorAtItsOffsets(ts, i);
  }

  /** The two numbers of an entry's offsets. */
  function OffsetsOf(v: Json): Option<(nat, nat)> {
    match Member(v, DATA_OFFSETS)
    case Some(Arr(items)) => Some((At(items, 0), At(items, 1)))
    case _ => None
  }

  lemma OffsetsAre(t: Tensor, lo: nat)
    ensures OffsetsOf(EntryValue(t, lo)) == Some((lo, lo + |t.data|))
  {
    Lookups(t, lo);
    hide Member, EntryValue;
    assert At(Nums([lo, lo + |t.data|]), 0) == lo && At(Nums([lo, lo + |t.data|]), 1) == lo + |t.data|;
  }

  lemma RawStep(t: Tensor, more: seq<Tensor>, lo: nat, n: nat)
    requires n < |more|
    ensures RawOf([t] + more, lo)[0] == (t.name, EntryValue(t, lo))
    ensures RawOf([t] + more, lo)[n + 1] == RawOf(more, lo + |t.data|)[n]
  {
    RawCons(t, more, lo);
    hide RawOf, EntryValue;
  }

  lemma {:induction false} RawFrom(ts: seq<Tensor>, k: nat, i: nat)
    requires k <= i < |ts|
    ensures RawOf(ts[k..], |Payload(ts[..k])|)[i - k] == (ts[i].name, EntryValue(ts[i], |Payload(ts[..i])|))
    decreases i - k
  {
    hide RawOf, Payload, EntryValue;
    NextOffset(ts, k);
    if k < i {
      RawFrom(ts, k + 1, i);
      RawStep(ts[k], ts[k + 1..], |Payload(ts[..k])|, i - (k + 1));
    } else {
      RawCons(ts[k], ts[k + 1..], |Payload(ts[..k])|);
    }
  }

  lemma RawAt(ts: seq<Tensor>, i: nat)
    requires i < |ts|
    ensures RawOf(ts, 0)[i] == (ts[i].name, EntryValue(ts[i], |Payload(ts[..i])|))
  {
    RawFrom(ts, 0, i);
    NoPayload();
    assert ts[0..] == ts && ts[..0] == [];
  }
}

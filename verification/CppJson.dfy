/** The C++ JSON value, the value a derivation has, and the canonical derivation `dump`
    writes for a value. */
module CppJson {
  import opened Bytes
  import opened Grammar
  import opened Descent
  import Utf8

  /** A C++ `double` by its 64-bit pattern; only `stod` and `operator<<` look inside. */
  type bits64 = d: int | 0 <= d < 0x1_0000_0000_0000_0000

  type int64 = i: int | INT64_MIN <= i <= INT64_MAX

  datatype Json =
    | Null
    | Bool(b: bool)
    | Int(i: int64)
    | Double(d: bits64)
    | Str(s: Bytes)
    | Arr(a: seq<Json>)
    | Obj(o: seq<Field>)

  datatype Field = Field(key: Bytes, val: Json)

  /** `std::stod`: None when it throws or its result is not finite. */
  type Stod = Bytes -> Option<bits64>

  /** `operator<<(double)`. */
  type Show = bits64 -> Bytes

  function Finite(stod: Stod): Bytes -> bool { (tok: Bytes) => stod(tok).Some? }

  function NumValue(tok: Bytes, stod: Stod): Json {
    if !IsFractional(tok) && INT64_MIN <= IntVal(tok) <= INT64_MAX then Int(IntVal(tok))
    else match stod(tok)
         case Some(d) => Double(d)
         case None => Null                     // not in a derivation: `Readable` rules it out
  }

  function ItemValue(item: Item): Bytes {
    match item
    case Raw(b) => [b]
    case Esc(c) => (match EscapeOf(c) case Some(b) => [b] case None => [])
    case Uni(h) => if IsHex4(h) then Utf8.EncodeOne(Hex4(h)) else []
  }

  /** The bytes C++ reads a string's items as. */
  function ItemsValue(items: seq<Item>): Bytes {
    if items == [] then [] else ItemValue(items[0]) + ItemsValue(items[1..])
  }

  function Value(t: Tree, stod: Stod): Json {
    match t
    case TNull => Null
    case TBool(v) => Bool(v)
    case TNum(tok) => NumValue(tok, stod)
    case TStr(items) => Str(ItemsValue(items))
    case TArr(_, es) => Arr(ElemValues(es, stod))
    case TObj(_, ms) => Obj(MemberValues(ms, stod))
  }

  function ElemValues(es: seq<Elem>, stod: Stod): seq<Json> {
    if es == [] then [] else [Value(es[0].t, stod)] + ElemValues(es[1..], stod)
  }

  function MemberValues(ms: seq<Member>, stod: Stod): seq<Field> {
    if ms == [] then []
    else [Field(ItemsValue(ms[0].key), Value(ms[0].val.t, stod))] + MemberValues(ms[1..], stod)
  }

  datatype Result<+T> = Success(value: T) | Failure(error: JsonError) {
    predicate IsFailure() { Failure? }
    function PropagateFailure<U>(): Result<U> requires Failure? { Failure(error) }
    function Extract(): T requires Success? { value }
  }

  /** What `Json::parse` returns or throws. */
  function Parse(s: Bytes, stod: Stod): Result<Json> {
    match PText(s, Finite(stod))
    case Ok(t, _) => Success(Value(t, stod))
    case Err(e) => Failure(e)
  }

  // ---- dump ----

  function HexDigit(n: int): byte
    requires 0 <= n < 16
  {
    if n < 10 then ZERO + n else 0x61 + (n - 10)
  }

  /** The spelling `write_string` gives a byte. */
  function ItemOf(b: byte): Item {
    if b == QUOTE then Esc(QUOTE)
    else if b == BACKSLASH then Esc(BACKSLASH)
    else if b == 0x08 then Esc(0x62)
    else if b == 0x0C then Esc(0x66)
    else if b == 0x0A then Esc(0x6E)
    else if b == 0x0D then Esc(0x72)
    else if b == 0x09 then Esc(0x74)
    else if b < 0x20 then Uni([ZERO, ZERO, HexDigit(b / 16), HexDigit(b % 16)])
    else Raw(b)
  }

  function ItemsOf(s: Bytes): seq<Item> {
    if s == [] then [] else [ItemOf(s[0])] + ItemsOf(s[1..])
  }

  function ShowNat(n: nat): Bytes {
    if n < 10 then [ZERO + n] else ShowNat(n / 10) + [ZERO + n % 10]
  }

  function ShowInt(i: int): Bytes {
    if i < 0 then [MINUS] + ShowNat(-i) else ShowNat(i)
  }

  function TreeOf(v: Json, show: Show): Tree {
    match v
    case Null => TNull
    case Bool(b) => TBool(b)
    case Int(i) => TNum(ShowInt(i))
    case Double(d) => TNum(show(d))
    case Str(s) => TStr(ItemsOf(s))
    case Arr(a) => TArr([], ElemsOf(a, show))
    case Obj(o) => TObj([], MembersOf(o, show))
  }

  function ElemsOf(a: seq<Json>, show: Show): (es: seq<Elem>)
    ensures |es| == |a|
  {
    if a == [] then [] else [Elem([], TreeOf(a[0], show), [])] + ElemsOf(a[1..], show)
  }

  function MembersOf(o: seq<Field>, show: Show): (ms: seq<Member>)
    ensures |ms| == |o|
  {
    if o == [] then []
    else [Member([], ItemsOf(o[0].key), [], Elem([], TreeOf(o[0].val, show), []))] + MembersOf(o[1..], show)
  }

  /** What `Json::dump` writes. */
  function Dump(v: Json, show: Show): Bytes { Text(TreeOf(v, show), []) }

  // ---- lookup ----

  /** `Json::find`: the first member with this key; None also when `v` is not an object. */
  function Lookup(v: Json, key: Bytes): Option<Json> {
    if v.Obj? then First(v.o, key) else None
  }

  function First(o: seq<Field>, key: Bytes): Option<Json> {
    if o == [] then None
    else if o[0].key == key then Some(o[0].val)
    else First(o[1..], key)
  }

  function AsString(v: Json): Bytes { if v.Str? then v.s else [] }

  method Find(v: Json, key: Bytes) returns (r: Option<Json>)
    ensures r == Lookup(v, key)
  {
    if !v.Obj? { return None; }
    var i := 0;
    while i < |v.o|
      invariant i <= |v.o| && First(v.o, key) == First(v.o[i..], key)
    {
      if v.o[i].key == key { return Some(v.o[i].val); }
      i := i + 1;
    }
    return None;
  }
}

/** What Python's `json.loads` makes of a text the C++ `dump` wrote. */
module CppToPython {
  import opened Bytes
  import opened Grammar
  import opened CppJson
  import opened RoundTrip
  import opened PyText
  import opened PyJson
  import opened Utf8

  /** The code points of a UTF-8 byte string. */
  function Chars(s: Bytes): Str {
    match Decode(s, true)
    case Some(cs) => cs
    case None => []
  }

  /** The Python value with the same contents. */
  function PyOf(v: Json): PyVal {
    match v
    case Null => PNone
    case Bool(b) => PBool(b)
    case Int(i) => PInt(i)
    case Double(_) => PNone                    // never: values here are double-free
    case Str(s) => PStr(Chars(s))
    case Arr(a) => PList(PyOfSeq(a))
    case Obj(o) => PDict(PyOfFields(o))
  }

  function PyOfSeq(a: seq<Json>): seq<PyVal> {
    if a == [] then [] else [PyOf(a[0])] + PyOfSeq(a[1..])
  }

  function PyOfFields(o: seq<Field>): (d: Dict)
    ensures |d| == |o|
    ensures forall i | 0 <= i < |o| :: d[i].key == Chars(o[i].key)
  {
    if o == [] then [] else [Entry(Chars(o[0].key), PyOf(o[0].val))] + PyOfFields(o[1..])
  }

  /** Every string of a value is UTF-8, and keys are distinct in every object. */
  predicate Presentable(v: Json) {
    match v
    case Double(_) => false
    case Str(s) => IsUtf8(s)
    case Arr(a) => PresentableSeq(a)
    case Obj(o) => DistinctFields(o) && PresentableFields(o)
    case _ => true
  }

  predicate PresentableSeq(a: seq<Json>) { a == [] || (Presentable(a[0]) && PresentableSeq(a[1..])) }

  predicate PresentableFields(o: seq<Field>) {
    o == [] || (IsUtf8(o[0].key) && Presentable(o[0].val) && PresentableFields(o[1..]))
  }

  predicate DistinctFields(o: seq<Field>) { forall i, j | 0 <= i < j < |o| :: o[i].key != o[j].key }

  lemma CharsBack(s: Bytes)
    requires IsUtf8(s)
    ensures Encode(Chars(s)) == s && NoSurrogates(Chars(s)) && NoPairs(Chars(s))
  {
    EncodeDecode(s, true);
  }

  /** A UTF-8 string C++ wrote is read by Python as its code points. */
  lemma StringRead(s: Bytes)
    requires IsUtf8(s)
    ensures PyStr(ItemsOf(s)) == Chars(s)
    ensures CleanItems(ItemsOf(s)) && NoControls(ItemsOf(s)) && ItemsWf(ItemsOf(s))
  {
    CharsBack(s);
    ItemsOfString(s);
    DecodeEncode(Chars(s));
    JoinId(Chars(s));
    EscapedUtf8(Chars(s));
  }

  lemma {:induction false} PresentableHasNoDoubles(v: Json)
    requires Presentable(v)
    ensures Doubles(v) == {}
    decreases v, 0
  {
    match v
    case Arr(a) => NoDoublesIn(a);
    case Obj(o) => NoDoublesOf(o);
    case _ =>
  }

  lemma {:induction false} NoDoublesIn(a: seq<Json>)
    requires PresentableSeq(a)
    ensures DoublesIn(a) == {}
    decreases a, 1
  {
    if a != [] {
      PresentableHasNoDoubles(a[0]);
      NoDoublesIn(a[1..]);
    }
  }

  lemma {:induction false} NoDoublesOf(o: seq<Field>)
    requires PresentableFields(o)
    ensures DoublesOf(o) == {}
    decreases o, 1
  {
    if o != [] {
      PresentableHasNoDoubles(o[0].val);
      NoDoublesOf(o[1..]);
    }
  }

  lemma {:induction false} ReadBack(v: Json, show: Show)
    requires Presentable(v)
    ensures PyValue(TreeOf(v, show)) == PyOf(v)
    ensures forall items <- Strings(TreeOf(v, show)) :: CleanItems(items) && NoControls(items)
    decreases v, 0
  {
    hide PyStr, ItemsOf, FromPairs, ShowInt, IntVal, IsFractional, Chars, CleanItems, NoControls;
    match v
    case Int(i) => ShowIntToken(i);
    case Str(s) => StringRead(s);
    case Arr(a) => ReadBackSeq(a, show);
    case Obj(o) =>
      ReadBackFields(o, show);
      DistinctRead(o);
    case _ =>
  }

  lemma DistinctRead(o: seq<Field>)
    requires DistinctFields(o) && PresentableFields(o)
    ensures FromPairs(PyOfFields(o)) == PyOfFields(o)
  {
    FieldsUtf8(o);
    forall i, j | 0 <= i < j < |o| ensures PyOfFields(o)[i].key != PyOfFields(o)[j].key {
      CharsBack(o[i].key);
      CharsBack(o[j].key);
    }
    FromDistinct(PyOfFields(o));
  }

  lemma {:induction false} FieldsUtf8(o: seq<Field>)
    requires PresentableFields(o)
    ensures forall i | 0 <= i < |o| :: IsUtf8(o[i].key)
  {
    if o != [] {
      FieldsUtf8(o[1..]);
      assert forall i | 1 <= i < |o| :: o[i] == o[1..][i - 1];
    }
  }

  lemma {:induction false} ReadBackSeq(a: seq<Json>, show: Show)
    requires PresentableSeq(a)
    ensures PyElems(ElemsOf(a, show)) == PyOfSeq(a)
    ensures forall items <- ElemStrings(ElemsOf(a, show)) :: CleanItems(items) && NoControls(items)
    decreases a, 1
  {
    hide CleanItems, NoControls;
    if a != [] {
      ReadBack(a[0], show);
      ReadBackSeq(a[1..], show);
      TailOfCons(ElemsOf(a, show)[0], ElemsOf(a[1..], show));
    }
  }

  lemma {:induction false} ReadBackFields(o: seq<Field>, show: Show)
    requires PresentableFields(o)
    ensures PyPairs(MembersOf(o, show)) == PyOfFields(o)
    ensures forall items <- MemberStrings(MembersOf(o, show)) :: CleanItems(items) && NoControls(items)
    decreases o, 1
  {
    hide CleanItems, NoControls, PyStr, ItemsOf, Chars;
    if o != [] {
      StringRead(o[0].key);
      ReadBack(o[0].val, show);
      ReadBackFields(o[1..], show);
      TailOfCons(MembersOf(o, show)[0], MembersOf(o[1..], show));
    }
  }

  /** The C++ printer refines the Python reader: any double-free value with UTF-8 strings and
      distinct keys is read by Python as the same value. */
  lemma PythonReadsCpp(v: Json, show: Show)
    requires Presentable(v)
    ensures Loads(Dump(v, show)) == Some(PyOf(v))
  {
    PresentableHasNoDoubles(v);
    TreeOfWf(v, show, AnyNumber());
    ReadBack(v, show);
    LoadsText(TreeOf(v, show));
  }
}

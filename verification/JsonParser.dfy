/** `Json::Parser`, one cursor over a byte string, proved to follow the descent. */
module JsonParser {
  import opened Bytes
  import opened Grammar
  import opened Descent
  import opened DescentProofs
  import opened CppJson
  import opened Recursion
  import CodeUnits
  import Utf8

  class Parser {
    const s: Bytes
    const stod: Stod
    var i: nat
    /** The most calls of `ParseValue` active at once so far. */
    ghost var deepest: nat

    constructor (text: Bytes, stod: Stod)
      ensures s == text && this.stod == stod && i == 0 && deepest == 0
    {
      s, this.stod, i, deepest := text, stod, 0, 0;
    }

    ghost predicate Valid() reads this { i <= |s| }

    /** The input not read yet. */
    ghost function Rest(): Bytes
      requires Valid()
      reads this
    {
      s[i..]
    }

    /** The call returned or threw what the descent says, and left the rest the descent leaves. */
    ghost predicate Reads(g: Res<Tree>, r: Result<Json>)
      requires Valid()
      reads this
    {
      match g
      case Ok(t, rest) => r == Success(Value(t, stod)) && Rest() == rest
      case Err(e) => r == Failure(e)
    }

    predicate AtEnd() reads this { i >= |s| }

    method SkipBlanks()
      requires Valid()
      modifies this`i
      ensures Valid() && old(i) <= i && Rest() == SkipWs(old(Rest()))
    {
      while i < |s|
        invariant old(i) <= i <= |s| && SkipWs(s[i..]) == SkipWs(old(Rest()))
      {
        var c := s[i];
        if c == 0x20 || c == 0x09 || c == 0x0A || c == 0x0D {
          assert s[i..][1..] == s[i + 1..];
          i := i + 1;
        } else {
          break;
        }
      }
    }

    method Expect(c: byte) returns (r: Result<()>)
      requires Valid()
      modifies this`i
      ensures Valid() && old(i) <= i
      ensures if old(Rest()) == [] || old(Rest())[0] != c then r == Failure(Expected(c)) && i == old(i)
              else r == Success(()) && Rest() == old(Rest())[1..] && i == old(i) + 1
    {
      if AtEnd() || s[i] != c { return Failure(Expected(c)); }
      i := i + 1;
      return Success(());
    }

    /** Past a run of digits that starts at the cursor. */
    method SkipDigitRun()
      requires Valid() && StartsWithDigit(Rest())
      modifies this`i
      ensures Valid() && old(i) < i && Rest() == SkipDigits(old(Rest()))
    {
      assert s[i..][1..] == s[i + 1..];
      i := i + 1;
      while !AtEnd() && 0x30 <= s[i] <= 0x39
        invariant old(i) < i <= |s| && SkipDigits(s[i..]) == SkipDigits(old(Rest()))
        decreases |s| - i
      {
        assert s[i..][1..] == s[i + 1..];
        i := i + 1;
      }
    }

    method ParseNumber() returns (r: Result<Json>)
      requires Valid()
      modifies this`i
      ensures Valid() && old(i) <= i
      ensures match PNumber(old(Rest()), Finite(stod))
              case Ok(tok, rest) => r == Success(NumValue(tok, stod)) && Rest() == rest
              case Err(e) => r == Failure(e)
    {
      hide SkipWhole, SkipFrac, SkipExp, SkipDigits, IntVal, IsFractional;
      var start := i;
      var isDouble;
      var ok := ScanWhole();
      if !ok { return Failure(InvalidNumber); }
      var mid := i;
      var hasFrac, hasExp;
      ok, hasFrac := ScanFrac();
      if !ok { return Failure(InvalidNumber); }
      ok, hasExp := ScanExp();
      if !ok { return Failure(InvalidNumber); }
      isDouble := hasFrac || hasExp;
      var tok := s[start..i];
      assert tok == s[start..][..|s[start..]| - |s[i..]|];
      FractionalToken(s[start..], s[mid..]);
      if !isDouble && INT64_MIN <= IntVal(tok) <= INT64_MAX {
        return Success(Int(IntVal(tok)));
      }
      var value := stod(tok);
      match value
      case Some(d) => return Success(Double(d));
      case None => return Failure(InvalidNumber);
    }

    /** The sign and the integer part. */
    method ScanWhole() returns (ok: bool)
      requires Valid()
      modifies this`i
      ensures Valid() && old(i) <= i && ok == SkipWhole(old(Rest())).Some?
      ensures ok ==> Rest() == SkipWhole(old(Rest())).value
    {
      if !AtEnd() && s[i] == MINUS {
        assert s[i..][1..] == s[i + 1..];
        i := i + 1;
      }
      if AtEnd() { return false; }
      if s[i] == ZERO {
        assert s[i..][1..] == s[i + 1..];
        i := i + 1;
        return AtEnd() || !(0x30 <= s[i] <= 0x39);
      } else if 0x31 <= s[i] <= 0x39 {
        SkipDigitRun();
        return true;
      }
      return false;
    }

    /** The fraction, if there is one. */
    method ScanFrac() returns (ok: bool, found: bool)
      requires Valid()
      modifies this`i
      ensures Valid() && old(i) <= i && ok == SkipFrac(old(Rest())).Some?
      ensures ok ==> Rest() == SkipFrac(old(Rest())).value && found == (old(i) < i)
    {
      if AtEnd() || s[i] != DOT { return true, false; }
      assert s[i..][1..] == s[i + 1..];
      i := i + 1;
      if AtEnd() || s[i] < 0x30 || s[i] > 0x39 { return false, true; }
      SkipDigitRun();
      return true, true;
    }

    /** The exponent, if there is one. */
    method ScanExp() returns (ok: bool, found: bool)
      requires Valid()
      modifies this`i
      ensures Valid() && old(i) <= i && ok == SkipExp(old(Rest())).Some?
      ensures ok ==> Rest() == SkipExp(old(Rest())).value && found == (old(i) < i)
    {
      if AtEnd() || (s[i] != LOWER_E && s[i] != UPPER_E) { return true, false; }
      assert s[i..][1..] == s[i + 1..] && (|s[i..]| > 1 ==> s[i..][2..] == s[i + 2..]);
      i := i + 1;
      if !AtEnd() && (s[i] == PLUS || s[i] == MINUS) { i := i + 1; }
      if AtEnd() || s[i] < 0x30 || s[i] > 0x39 { return false, true; }
      SkipDigitRun();
      return true, true;
    }

    method ParseString() returns (r: Result<Bytes>)
      requires Valid()
      modifies this`i
      ensures Valid() && old(i) <= i
      ensures match PString(old(Rest()))
              case Ok(items, rest) => r == Success(ItemsValue(items)) && Rest() == rest
              case Err(e) => r == Failure(e)
    {
      hide Continues, PItems, ItemsValue;
      var _ :- Expect(QUOTE);
      ghost var all := PItems(s[i..]);
      ContinuesStart(all);
      var out: Bytes := [];
      while !AtEnd()
        invariant old(i) < i <= |s|
        invariant Continues(all, out, PItems(s[i..]))
        decreases |s| - i
      {
        ghost var here := s[i..];
        ContinuesItems(all, out, here);
        var c := s[i];
        i := i + 1;
        assert here[1..] == s[i..];
        if c == QUOTE { return Success(out); }
        if c == BACKSLASH {
          if AtEnd() { return Failure(UnterminatedString); }
          var e := s[i];
          i := i + 1;
          assert here[2..] == s[i..];
          if e == LOWER_U {
            if i + 4 > |s| { return Failure(ShortUnicode); }
            assert here[6..] == s[i + 4..] && here[2..6] == s[i..i + 4];
            out :- ReadUnicode(out);
          } else {
            var v := EscapeOf(e);
            if v.None? { return Failure(InvalidEscape); }
            out := out + [v.value];
          }
        } else {
          out := out + [c];
        }
      }
      assert s[i..] == [];
      ContinuesItems(all, out, []);
      return Failure(UnterminatedString);
    }

    /** The four digits of a `\u` escape. */
    method ReadHex4() returns (r: Result<bv16>)
      requires Valid() && i + 4 <= |s|
      modifies this`i
      ensures Valid() && old(i) <= i
      ensures var h := old(s[i..i + 4]);
              if IsHex4(h) then r.Success? && r.value as int == Hex4(h) && i == old(i) + 4 else r == Failure(BadHex)
    {
      hide Hex4, HexPrefix, HexVal, IsHex;
      var code: bv16 := 0;
      var k := 0;
      ghost var h := s[i..i + 4];
      NoDigits(h);
      while k < 4
        invariant 0 <= k <= 4 && i == old(i) + k
        invariant forall j | 0 <= j < k :: IsHex(h[j])
        invariant code as int == HexPrefix(h, k)
      {
        var d: int := s[i];
        i := i + 1;
        assert d == h[k];
        var v := HexDigit(d);
        if v < 0 { return Failure(BadHex); }
        DigitsBound(h, k);
        OneMoreDigit(h, k);
        code := CodeUnits.Push(code, v);
        k := k + 1;
      }
      FourDigits(h);
      return Success(code);
    }

    /** The value of a hex digit, -1 for anything else. */
    static method HexDigit(d: byte) returns (v: int)
      ensures if IsHex(d) then v == HexVal(d) && 0 <= v < 16 else v == -1
    {
      if 0x30 <= d <= 0x39 { return d - 0x30; }
      if 0x61 <= d <= 0x66 { return d - 0x61 + 10; }
      if 0x41 <= d <= 0x46 { return d - 0x41 + 10; }
      return -1;
    }

    /** A whole `\u` escape, after its `u`: its unit's UTF-8 form joins `out`. */
    method ReadUnicode(out: Bytes) returns (r: Result<Bytes>)
      requires Valid() && i + 4 <= |s|
      modifies this`i
      ensures Valid() && old(i) <= i
      ensures var h := old(s[i..i + 4]);
              if IsHex4(h) then r == Success(out + Utf8.EncodeOne(Hex4(h))) && i == old(i) + 4 else r == Failure(BadHex)
    {
      hide Utf8.EncodeOne, Hex4, IsHex4;
      var code :- ReadHex4();
      var more := CodeUnits.AppendUtf8(out, code);
      return Success(more);
    }

    /** `level` is how many calls of `ParseValue` this one is inside. */
    method ParseValue(ghost level: nat) returns (r: Result<Json>)
      requires Valid()
      modifies this`i, this`deepest
      ensures Valid() && old(i) <= i
      ensures Reads(PTree(SkipWs(old(Rest())), Finite(stod)), r)
      ensures r.Success? ==> old(i) < i
      ensures deepest == Max(old(deepest), level + Calls(SkipWs(old(Rest())), Finite(stod)))
      ensures deepest <= Max(old(deepest), level + |old(Rest())| + 1)
      decreases |s| - i, 2
    {
      hide Calls, SkipWs;
      SkipBlanks();
      NothingLeft(Finite(stod));
      SomeCall(s[i..], Finite(stod));
      CallsBound(s[i..], Finite(stod));
      deepest := Max(deepest, level + 1);
      if AtEnd() { return Failure(UnexpectedEnd); }
      hide PTree, Value;
      r := ParseByFirst(level + 1);
    }

    /** What the first byte of a value chooses. */
    method ParseByFirst(ghost level: nat) returns (r: Result<Json>)
      requires Valid() && Rest() != [] && 1 <= level <= deepest
      modifies this`i, this`deepest
      ensures Valid() && old(i) <= i
      ensures Reads(PTree(old(Rest()), Finite(stod)), r) && (r.Success? ==> old(i) < i)
      ensures deepest == Max(old(deepest), level - 1 + Calls(old(Rest()), Finite(stod)))
      decreases |s| - i, 1
    {
      hide Calls;
      SomeCall(Rest(), Finite(stod));
      var c := s[i];
      if c == LBRACE { r := ParseObject(level); }
      else if c == LBRACKET { r := ParseArray(level); }
      else if c == QUOTE { var v :- ParseString(); r := Success(Str(v)); }
      else if c == 0x74 || c == 0x66 { r := ParseBool(); }
      else if c == 0x6E { r := ParseNull(); }
      else { r := ParseNumber(); }
    }

    method ParseBool() returns (r: Result<Json>)
      requires Valid() && Rest() != [] && (Rest()[0] == 0x74 || Rest()[0] == 0x66)
      modifies this`i
      ensures Valid() && old(i) <= i
      ensures Reads(PTree(old(Rest()), Finite(stod)), r)
    {
      if i + 4 <= |s| && s[i..i + 4] == TRUE_TEXT {
        assert s[i..][..4] == s[i..i + 4] && s[i..][4..] == s[i + 4..];
        i := i + 4;
        return Success(Bool(true));
      }
      if i + 5 <= |s| && s[i..i + 5] == FALSE_TEXT {
        assert s[i..][..5] == s[i..i + 5] && s[i..][5..] == s[i + 5..];
        assert s[i..i + 5][0] != TRUE_TEXT[0];
        i := i + 5;
        return Success(Bool(false));
      }
      assert i + 4 <= |s| ==> s[i..][..4] == s[i..i + 4];
      assert i + 5 <= |s| ==> s[i..][..5] == s[i..i + 5];
      return Failure(InvalidLiteral);
    }

    method ParseNull() returns (r: Result<Json>)
      requires Valid() && Rest() != [] && Rest()[0] == 0x6E
      modifies this`i
      ensures Valid() && old(i) <= i
      ensures Reads(PTree(old(Rest()), Finite(stod)), r)
    {
      assert i + 4 <= |s| ==> s[i..][..4] == s[i..i + 4] && s[i..][4..] == s[i + 4..];
      if i + 4 <= |s| && s[i..i + 4] == NULL_TEXT {
        i := i + 4;
        return Success(Null);
      }
      return Failure(InvalidLiteral);
    }

    method ParseArray(ghost level: nat) returns (r: Result<Json>)
      requires Valid() && 1 <= level <= deepest
      modifies this`i, this`deepest
      ensures Valid() && old(i) <= i
      ensures if old(Rest()) == [] || old(Rest())[0] != LBRACKET then r == Failure(Expected(LBRACKET))
              else Reads(PTree(old(Rest()), Finite(stod)), r)
                   && deepest == Max(old(deepest), level - 1 + Calls(old(Rest()), Finite(stod)))
      decreases |s| - i, 0
    {
      hide PTree, PElem, PElems, ContinuesElems, Value, ElemValues, SkipWs, WsLen, Calls, ElemsCalls;
      ghost var ok := Finite(stod);
      if i < |s| && s[i] == LBRACKET {
        ArrayTree(Rest(), ok, stod);
        BracketCalls(Rest(), ok);
      }
      var _ :- Expect(LBRACKET);
      ghost var all := PElems(s[i..], ok);
      ElemsSkipWs(s[i..], ok, stod);
      SkippedCalls(s[i..], ok);
      SkipBlanks();
      if !AtEnd() && s[i] == RBRACKET { i := i + 1; return Success(Arr([])); }
      r := ParseElems(all, level);
    }

    /** The loop of `parse_array`, at the first element. */
    method ParseElems(ghost all: Res<seq<Elem>>, ghost level: nat) returns (r: Result<Json>)
      requires Valid() && ContinuesElems(all, [], PElems(Rest(), Finite(stod)), stod)
      modifies this`i, this`deepest
      ensures Valid() && old(i) <= i
      ensures match all
              case Err(e) => r == Failure(e)
              case Ok(es, rest) => r == Success(Arr(ElemValues(es, stod))) && Rest() == rest
      ensures deepest == Max(old(deepest), level + ElemsCalls(old(Rest()), Finite(stod)))
      decreases |s| - i, 3
    {
      hide PTree, PElem, PElems, ContinuesElems, Value, ElemValues, SkipWs, WsLen, Calls, ElemsCalls;
      ghost var ok := Finite(stod);
      var arr: seq<Json> := [];
      while true
        invariant old(i) <= i <= |s|
        invariant ContinuesElems(all, arr, PElems(s[i..], ok), stod)
        invariant Max(deepest, level + ElemsCalls(s[i..], ok)) ==
                  Max(old(deepest), level + ElemsCalls(old(Rest()), ok))
        decreases |s| - i
      {
        ElemOf(s[i..], ok);
        ElemCalls(s[i..], ok);
        ContinuesElem(all, arr, s[i..], ok, stod);
        var v :- ParseValue(level);
        arr := arr + [v];
        SkipBlanks();
        if AtEnd() { return Failure(UnterminatedArray); }
        var c := s[i];
        assert s[i..][1..] == s[i + 1..];
        i := i + 1;
        if c == COMMA { continue; }
        if c == RBRACKET { break; }
        return Failure(BadArray);
      }
      return Success(Arr(arr));
    }

    /** Key, colon and value: the first half of the object loop's body. */
    method ParseMember(ghost level: nat) returns (r: Result<Field>)
      requires Valid()
      modifies this`i, this`deepest
      ensures Valid() && old(i) <= i
      ensures match PKey(old(Rest()))
              case Err(e) => r == Failure(e)
              case Ok(key, b) =>
                match PElem(b, Finite(stod))
                case Err(e) => r == Failure(e)
                case Ok(e, q) =>
                  r == Success(Field(ItemsValue(key.1), Value(e.t, stod))) && SkipWs(Rest()) == q && old(i) < i
      ensures match PKey(old(Rest()))
              case Err(_) => deepest == old(deepest)
              case Ok(_, b) => deepest == Max(old(deepest), level + Calls(SkipWs(b), Finite(stod)))
      decreases |s| - i, 3
    {
      hide PTree, PElem, Value, SkipWs, WsLen, PKey, PString, PItems, ItemsValue, Calls;
      KeyOf(Rest());
      SkipBlanks();
      var key :- ParseString();
      SkipBlanks();
      var _ :- Expect(COLON);
      ElemOf(s[i..], Finite(stod));
      var v :- ParseValue(level);
      return Success(Field(key, v));
    }

    method ParseObject(ghost level: nat) returns (r: Result<Json>)
      requires Valid() && 1 <= level <= deepest
      modifies this`i, this`deepest
      ensures Valid() && old(i) <= i
      ensures if old(Rest()) == [] || old(Rest())[0] != LBRACE then r == Failure(Expected(LBRACE))
              else Reads(PTree(old(Rest()), Finite(stod)), r)
                   && deepest == Max(old(deepest), level - 1 + Calls(old(Rest()), Finite(stod)))
      decreases |s| - i, 0
    {
      hide PTree, PElem, PMembers, ContinuesMembers, Value, MemberValues, SkipWs, WsLen, PKey, PString, PItems,
           ItemsValue, Calls, MembersCalls;
      ghost var ok := Finite(stod);
      if i < |s| && s[i] == LBRACE {
        ObjectTree(Rest(), ok, stod);
        BraceCalls(Rest(), ok);
      }
      var _ :- Expect(LBRACE);
      ghost var all := PMembers(s[i..], ok);
      MembersSkipWs(s[i..], ok, stod);
      SkippedCalls(s[i..], ok);
      SkipBlanks();
      if !AtEnd() && s[i] == RBRACE { i := i + 1; return Success(Obj([])); }
      r := ParseMembers(all, level);
    }

    /** The loop of `parse_object`, at the first member. */
    method ParseMembers(ghost all: Res<seq<Member>>, ghost level: nat) returns (r: Result<Json>)
      requires Valid() && ContinuesMembers(all, [], PMembers(Rest(), Finite(stod)), stod) && level <= deepest
      modifies this`i, this`deepest
      ensures Valid() && old(i) <= i
      ensures match all
              case Err(e) => r == Failure(e)
              case Ok(ms, rest) => r == Success(Obj(MemberValues(ms, stod))) && Rest() == rest
      ensures deepest == Max(old(deepest), level + MembersCalls(old(Rest()), Finite(stod)))
      decreases |s| - i, 4
    {
      hide PTree, PElem, PMembers, ContinuesMembers, Value, MemberValues, SkipWs, WsLen, PKey, PString, PItems,
           ItemsValue, Calls, MembersCalls;
      ghost var ok := Finite(stod);
      var obj: seq<Field> := [];
      while true
        invariant old(i) <= i <= |s|
        invariant ContinuesMembers(all, obj, PMembers(s[i..], ok), stod)
        invariant level <= deepest && Max(deepest, level + MembersCalls(s[i..], ok)) ==
                  Max(old(deepest), level + MembersCalls(old(Rest()), ok))
        decreases |s| - i
      {
        MemberCalls(s[i..], ok);
        ContinuesMember(all, obj, s[i..], ok, stod);
        var field :- ParseMember(level);
        obj := obj + [field];
        SkipBlanks();
        if AtEnd() { return Failure(UnterminatedObject); }
        var c := s[i];
        assert s[i..][1..] == s[i + 1..];
        i := i + 1;
        if c == COMMA { continue; }
        if c == RBRACE { break; }
        return Failure(BadObject);
      }
      return Success(Obj(obj));
    }
  }

  lemma NothingLeft(ok: Bytes -> bool)
    ensures PTree([], ok) == Err(UnexpectedEnd) && Calls([], ok) == 1
  {
  }

  /** The value of the first `k` hex digits. */
  ghost function HexPrefix(h: Bytes, k: nat): int
    requires k <= |h| && forall j | 0 <= j < k :: IsHex(h[j])
  {
    if k == 0 then 0 else HexPrefix(h, k - 1) * 16 + HexVal(h[k - 1])
  }

  lemma {:induction false} DigitsBound(h: Bytes, k: nat)
    requires k < |h| <= 4 && forall j | 0 <= j < k :: IsHex(h[j])
    ensures 0 <= HexPrefix(h, k) < 0x1000
  {
    if k > 0 { DigitsBound(h, k - 1); }
    if k > 1 { DigitsBound(h, k - 2); }
    if k > 2 { DigitsBound(h, k - 3); }
  }

  lemma NoDigits(h: Bytes)
    ensures HexPrefix(h, 0) == 0
  {
  }

  lemma OneMoreDigit(h: Bytes, k: nat)
    requires k < |h| && forall j | 0 <= j <= k :: IsHex(h[j])
    ensures HexPrefix(h, k + 1) == HexPrefix(h, k) * 16 + HexVal(h[k])
  {
  }

  lemma FourDigits(h: Bytes)
    requires |h| == 4 && forall j | 0 <= j < 4 :: IsHex(h[j])
    ensures IsHex4(h) && HexPrefix(h, 4) == Hex4(h)
  {
    assert HexPrefix(h, 1) == HexVal(h[0]);
    assert HexPrefix(h, 2) == HexPrefix(h, 1) * 16 + HexVal(h[1]);
  }

  // ---- what a loop has still to read, set against what it has read ----

  /** The whole string is what `out` holds followed by what is left. */
  ghost predicate Continues(all: Res<seq<Item>>, out: Bytes, left: Res<seq<Item>>) {
    match left
    case Err(e) => all == Err(e)
    case Ok(items, rest) =>
      all.Ok? && all.rest == rest && ItemsValue(all.v) == out + ItemsValue(items)
  }

  ghost predicate ContinuesElems(all: Res<seq<Elem>>, arr: seq<Json>, left: Res<seq<Elem>>, stod: Stod) {
    match left
    case Err(e) => all == Err(e)
    case Ok(es, rest) =>
      all.Ok? && all.rest == rest && ElemValues(all.v, stod) == arr + ElemValues(es, stod)
  }

  ghost predicate ContinuesMembers(all: Res<seq<Member>>, obj: seq<Field>, left: Res<seq<Member>>,
                                   stod: Stod) {
    match left
    case Err(e) => all == Err(e)
    case Ok(ms, rest) =>
      all.Ok? && all.rest == rest && MemberValues(all.v, stod) == obj + MemberValues(ms, stod)
  }

  lemma ContinuesStart(all: Res<seq<Item>>)
    ensures Continues(all, [], all)
  {
  }

  function Prepend(item: Item, r: Res<seq<Item>>): Res<seq<Item>> {
    match r
    case Ok(items, rest) => Ok([item] + items, rest)
    case Err(e) => Err(e)
  }

  lemma ContinuesItem(all: Res<seq<Item>>, out: Bytes, item: Item, left: Res<seq<Item>>)
    requires Continues(all, out, Prepend(item, left))
    ensures Continues(all, out + ItemValue(item), left)
  {
    if left.Ok? {
      TailOfCons(item, left.v);
      Assoc(out, ItemValue(item), ItemsValue(left.v));
    }
  }

  /** One turn of the string loop. */
  lemma {:induction false} ContinuesItems(all: Res<seq<Item>>, out: Bytes, s: Bytes)
    requires Continues(all, out, PItems(s))
    ensures if s == [] then all == Err(UnterminatedString)
            else if s[0] == QUOTE then all.Ok? && all.rest == s[1..] && ItemsValue(all.v) == out
            else if s[0] != BACKSLASH then Continues(all, out + [s[0]], PItems(s[1..]))
            else if |s| == 1 then all == Err(UnterminatedString)
            else if s[1] != LOWER_U then
              match EscapeOf(s[1])
              case None => all == Err(InvalidEscape)
              case Some(b) => Continues(all, out + [b], PItems(s[2..]))
            else if |s| < 6 then all == Err(ShortUnicode)
            else if !IsHex4(s[2..6]) then all == Err(BadHex)
            else Continues(all, out + Utf8.EncodeOne(Hex4(s[2..6])), PItems(s[6..]))
  {
    if s == [] || s[0] == QUOTE {
    } else if s[0] != BACKSLASH {
      ContinuesItem(all, out, Raw(s[0]), PItems(s[1..]));
    } else if |s| == 1 {
    } else if s[1] != LOWER_U {
      if EscapeOf(s[1]).Some? { ContinuesItem(all, out, Esc(s[1]), PItems(s[2..])); }
    } else if |s| >= 6 && IsHex4(s[2..6]) {
      ContinuesItem(all, out, Uni(s[2..6]), PItems(s[6..]));
    }
  }

  lemma OneElem(e: Elem, stod: Stod)
    ensures ElemValues([e], stod) == [Value(e.t, stod)]
  {
    assert ElemValues([e][1..], stod) == [];
  }

  lemma OneMember(m: Member, stod: Stod)
    ensures MemberValues([m], stod) == [Field(ItemsValue(m.key), Value(m.val.t, stod))]
  {
    assert MemberValues([m][1..], stod) == [];
  }

  /** One turn of the array loop. */
  lemma ContinuesElem(all: Res<seq<Elem>>, arr: seq<Json>, s: Bytes, ok: Bytes -> bool, stod: Stod)
    requires ContinuesElems(all, arr, PElems(s, ok), stod)
    ensures match PElem(s, ok)
            case Err(e) => all == Err(e)
            case Ok(e, q) =>
              var arr' := arr + [Value(e.t, stod)];
              if q == [] then all == Err(UnterminatedArray)
              else if q[0] == COMMA then ContinuesElems(all, arr', PElems(q[1..], ok), stod)
              else if q[0] == RBRACKET then all.Ok? && all.rest == q[1..] && ElemValues(all.v, stod) == arr'
              else all == Err(BadArray)
  {
    hide PTree, PElem, Value;
    if PElems(s, ok).Ok? {
      var e, q := PElem(s, ok).v, PElem(s, ok).rest;
      OneElem(e, stod);
      if q[0] == COMMA { TailOfCons(e, PElems(q[1..], ok).v); }
    }
  }

  /** One turn of the object loop. */
  lemma ContinuesMember(all: Res<seq<Member>>, obj: seq<Field>, s: Bytes, ok: Bytes -> bool,
                        stod: Stod)
    requires ContinuesMembers(all, obj, PMembers(s, ok), stod)
    ensures match PKey(s)
            case Err(e) => all == Err(e)
            case Ok(key, b) =>
              match PElem(b, ok)
              case Err(e) => all == Err(e)
              case Ok(e, q) =>
                var obj' := obj + [Field(ItemsValue(key.1), Value(e.t, stod))];
                if q == [] then all == Err(UnterminatedObject)
                else if q[0] == COMMA then ContinuesMembers(all, obj', PMembers(q[1..], ok), stod)
                else if q[0] == RBRACE then all.Ok? && all.rest == q[1..] && MemberValues(all.v, stod) == obj'
                else all == Err(BadObject)
  {
    hide PTree, PElem, PKey, Value;
    if PMembers(s, ok).Ok? {
      var m, q := PMembers(s, ok).v[0], PElem(PKey(s).rest, ok).rest;
      OneMember(m, stod);
      if q[0] == COMMA { TailOfCons(m, PMembers(q[1..], ok).v); }
    }
  }

  /** The loops skip blanks once more than the descent; the values read are the same. */
  lemma ElemsSkipWs(s: Bytes, ok: Bytes -> bool, stod: Stod)
    ensures ContinuesElems(PElems(s, ok), [], PElems(SkipWs(s), ok), stod)
  {
    var a, b := PElems(s, ok), PElems(SkipWs(s), ok);
    SkipWsTwice(s);
    ElemOf(s, ok);
    ElemOf(SkipWs(s), ok);
    hide PTree, PElem, PElems, ElemValues, Value, WsLen, SkipWs;
    ContinuesElem(a, [], s, ok, stod);
    ContinuesElem(b, [], SkipWs(s), ok, stod);
  }

  lemma MembersSkipWs(s: Bytes, ok: Bytes -> bool, stod: Stod)
    ensures ContinuesMembers(PMembers(s, ok), [], PMembers(SkipWs(s), ok), stod)
  {
    var a, b := PMembers(s, ok), PMembers(SkipWs(s), ok);
    SkipWsTwice(s);
    KeyOf(s);
    KeyOf(SkipWs(s));
    hide PTree, PElem, PMembers, MemberValues, Value, WsLen, SkipWs, PKey;
    ContinuesMember(a, [], s, ok, stod);
    ContinuesMember(b, [], SkipWs(s), ok, stod);
  }

  lemma ArrayTree(s: Bytes, ok: Bytes -> bool, stod: Stod)
    requires s != [] && s[0] == LBRACKET
    ensures var r := SkipWs(s[1..]);
            if r != [] && r[0] == RBRACKET then
              PTree(s, ok).Ok? && Value(PTree(s, ok).v, stod) == Arr([]) && PTree(s, ok).rest == r[1..]
            else
              match PElems(s[1..], ok)
              case Err(e) => PTree(s, ok) == Err(e)
              case Ok(es, rest) =>
                PTree(s, ok).Ok? && Value(PTree(s, ok).v, stod) == Arr(ElemValues(es, stod))
                  && PTree(s, ok).rest == rest
  {
    hide PElems;
  }

  lemma ObjectTree(s: Bytes, ok: Bytes -> bool, stod: Stod)
    requires s != [] && s[0] == LBRACE
    ensures var r := SkipWs(s[1..]);
            if r != [] && r[0] == RBRACE then
              PTree(s, ok).Ok? && Value(PTree(s, ok).v, stod) == Obj([]) && PTree(s, ok).rest == r[1..]
            else
              match PMembers(s[1..], ok)
              case Err(e) => PTree(s, ok) == Err(e)
              case Ok(ms, rest) =>
                PTree(s, ok).Ok? && Value(PTree(s, ok).v, stod) == Obj(MemberValues(ms, stod))
                  && PTree(s, ok).rest == rest
  {
    hide PMembers;
  }

  /** A scanned token has a fraction or an exponent iff something follows its integer part. */
  lemma FractionalToken(s: Bytes, a: Bytes)
    requires SkipWhole(s) == Some(a) && SkipNumber(s).Some?
    ensures var rest := SkipNumber(s).value;
            IsFractional(s[..|s| - |rest|]) <==> rest != a
  {
    var rest := SkipNumber(s).value;
    var neg, whole := SkipWholeSound(s);
    var n := |s| - |a|;
    var tok := s[..|s| - |rest|];
    assert forall i | 0 <= i < n :: s[i] != DOT && s[i] != LOWER_E && s[i] != UPPER_E by {
      assert s[..n] == (if neg then [MINUS] else []) + whole;
      assert forall i | 0 <= i < n :: s[i] == s[..n][i];
    }
    if rest != a {
      assert s[n] == a[0] && |rest| < |a|;
      assert tok[n] == a[0];
    }
  }

  method Parse(text: Bytes, stod: Stod) returns (r: Result<Json>)
    ensures r == CppJson.Parse(text, stod)
  {
    var p := new Parser(text, stod);
    assert p.Rest() == text;
    SkipWsTwice(text);
    p.SkipBlanks();
    var v :- p.ParseValue(0);
    p.SkipBlanks();
    if !p.AtEnd() { return Failure(TrailingData); }
    return Success(v);
  }
}

/** `Json::write` onto a growing stream, proved to emit the canonical derivation's text. */
module JsonWriter {
  import opened Bytes
  import opened Grammar
  import opened CppJson

  class Stream {
    var out: Bytes

    constructor ()
      ensures out == []
    {
      out := [];
    }

    method Put(b: Bytes)
      modifies this
      ensures out == old(out) + b
    {
      out := out + b;
    }

    method WriteString(s: Bytes)
      modifies this
      ensures out == old(out) + ([QUOTE] + ItemsText(ItemsOf(s), []))
    {
      Put([QUOTE]);
      ghost var start := out;
      var j := 0;
      while j < |s|
        invariant j <= |s|
        invariant start + ItemsText(ItemsOf(s), []) == out + ItemsText(ItemsOf(s[j..]), [])
      {
        var c := s[j];
        ghost var before := out;
        if c == 0x22 { Put([BACKSLASH, 0x22]); }
        else if c == 0x5C { Put([BACKSLASH, 0x5C]); }
        else if c == 0x08 { Put([BACKSLASH, 0x62]); }
        else if c == 0x0C { Put([BACKSLASH, 0x66]); }
        else if c == 0x0A { Put([BACKSLASH, 0x6E]); }
        else if c == 0x0D { Put([BACKSLASH, 0x72]); }
        else if c == 0x09 { Put([BACKSLASH, 0x74]); }
        else if c < 0x20 {
          Put([BACKSLASH, LOWER_U, 0x30, 0x30, HexDigit(c / 16), HexDigit(c % 16)]);
        } else { Put([c]); }
        assert out == before + ItemOf(c).Text();
        TextOfString(s[j..], before);
        j := j + 1;
        assert s[j - 1..][1..] == s[j..];
      }
      assert s[j..] == [];
      assert start + ItemsText(ItemsOf(s), []) == out + ([QUOTE] + []);
      Put([QUOTE]);
      assert out == start + ItemsText(ItemsOf(s), []);
    }

    method Write(v: Json, show: Show)
      modifies this
      ensures out == old(out) + Dump(v, show)
      decreases v
    {
      match v {
        case Null => Put(NULL_TEXT);
        case Bool(b) => if b { Put(TRUE_TEXT); } else { Put(FALSE_TEXT); }
        case Int(i) => Put(ShowInt(i));
        case Double(d) => Put(show(d));
        case Str(s) => WriteString(s);
        case Arr(a) => WriteArray(v, show);
        case Obj(o) => WriteObject(v, show);
      }
    }

    method WriteArray(v: Json, show: Show)
      requires v.Arr?
      modifies this
      ensures out == old(out) + Dump(v, show)
      decreases v, 0
    {
      var a := v.a;
      DumpArr(a, show);
      hide Dump, ElemsTail;
      ghost var start := out;
      Put([LBRACKET]);
      Assoc(start, [LBRACKET], ElemsTail(a, 0, show));
      var i := 0;
      while i < |a|
        invariant i <= |a|
        invariant start + Dump(v, show) == out + ElemsTail(a, i, show)
      {
        ghost var before := out;
        ElemsTailStep(a, i, show);
        Regroup(before, if i == 0 then [] else [COMMA], Dump(a[i], show), ElemsTail(a, i + 1, show));
        if i > 0 { Put([COMMA]); }
        assert out == before + if i == 0 then [] else [COMMA];
        Write(a[i], show);
        i := i + 1;
      }
      ElemsTailEnd(a, show);
      Put([RBRACKET]);
    }

    method WriteObject(v: Json, show: Show)
      requires v.Obj?
      modifies this
      ensures out == old(out) + Dump(v, show)
      decreases v, 0
    {
      var o := v.o;
      DumpObj(o, show);
      hide Dump, MembersTail, ItemsText, ItemsOf;
      ghost var start := out;
      Put([LBRACE]);
      Assoc(start, [LBRACE], MembersTail(o, 0, show));
      var i := 0;
      while i < |o|
        invariant i <= |o|
        invariant start + Dump(v, show) == out + MembersTail(o, i, show)
      {
        MembersTailStep(o, i, show);
        WriteMember(v, o[i], i > 0, MembersTail(o, i + 1, show), show);
        i := i + 1;
      }
      MembersTailEnd(o, show);
      Put([RBRACE]);
    }

    /** Comma, key, colon and value: the body of the object loop. */
    method WriteMember(v: Json, f: Field, comma: bool, ghost rest: Bytes, show: Show)
      requires v.Obj? && f in v.o
      modifies this
      ensures out + rest == old(out) + MemberText(f, comma, rest, show)
      decreases v, 0, 0
    {
      hide Dump, ItemsText, ItemsOf;
      ghost var before := out;
      Regroup5(before, if comma then [COMMA] else [], Quoted(f.key), [COLON], Dump(f.val, show), rest);
      if comma { Put([COMMA]); }
      assert out == before + if comma then [COMMA] else [];
      WriteString(f.key);
      Put([COLON]);
      Write(f.val, show);
    }
  }

  function Quoted(s: Bytes): Bytes { [QUOTE] + ItemsText(ItemsOf(s), []) }

  /** One member, its comma before it if it has one, then `rest`. */
  function MemberText(f: Field, comma: bool, rest: Bytes, show: Show): Bytes {
    (if comma then [COMMA] else []) + (Quoted(f.key) + ([COLON] + (Dump(f.val, show) + rest)))
  }

  lemma Regroup(b: Bytes, c: Bytes, d: Bytes, k: Bytes)
    ensures b + (c + (d + k)) == ((b + c) + d) + k
  {
  }

  lemma Regroup5(b: Bytes, c: Bytes, d: Bytes, e: Bytes, f: Bytes, k: Bytes)
    ensures b + (c + (d + (e + (f + k)))) == ((((b + c) + d) + e) + f) + k
  {
  }

  lemma DumpArr(a: seq<Json>, show: Show)
    ensures Dump(Arr(a), show) == [LBRACKET] + ElemsTail(a, 0, show)
  {
    assert a[0..] == a;
  }

  lemma DumpObj(o: seq<Field>, show: Show)
    ensures Dump(Obj(o), show) == [LBRACE] + MembersTail(o, 0, show)
  {
    assert o[0..] == o;
  }

  lemma {:induction false} TextOfString(s: Bytes, before: Bytes)
    requires s != []
    ensures before + ItemsText(ItemsOf(s), []) == (before + ItemOf(s[0]).Text()) + ItemsText(ItemsOf(s[1..]), [])
  {
    TailOfCons(ItemOf(s[0]), ItemsOf(s[1..]));
  }

  /** What the array loop has still to write when `i` elements are out. */
  ghost function ElemsTail(a: seq<Json>, i: nat, show: Show): Bytes
    requires i <= |a|
  {
    if i == |a| then [RBRACKET]
    else (if i == 0 then [] else [COMMA]) + ElemsText(ElemsOf(a[i..], show), [])
  }

  lemma ElemsTailEnd(a: seq<Json>, show: Show)
    ensures ElemsTail(a, |a|, show) == [RBRACKET]
  {
  }

  lemma MembersTailEnd(o: seq<Field>, show: Show)
    ensures MembersTail(o, |o|, show) == [RBRACE]
  {
  }

  lemma ElemsTailStep(a: seq<Json>, i: nat, show: Show)
    requires i < |a|
    ensures ElemsTail(a, i, show) ==
            (if i == 0 then [] else [COMMA]) + (Dump(a[i], show) + ElemsTail(a, i + 1, show))
  {
    var t, k := TreeOf(a[i], show), ElemsTail(a, i + 1, show);
    assert a[i..][0] == a[i] && a[i..][1..] == a[i + 1..];
    TailOfCons(Elem([], t, []), ElemsOf(a[i + 1..], show));
    TextThen(t, k);
    assert [] + k == k && [RBRACKET] + [] == [RBRACKET] && [] + Text(t, k) == Text(t, k);
  }

  ghost function MembersTail(o: seq<Field>, i: nat, show: Show): Bytes
    requires i <= |o|
  {
    if i == |o| then [RBRACE]
    else (if i == 0 then [] else [COMMA]) + MembersText(MembersOf(o[i..], show), [])
  }

  lemma MembersTailStep(o: seq<Field>, i: nat, show: Show)
    requires i < |o|
    ensures MembersTail(o, i, show) == MemberText(o[i], i > 0, MembersTail(o, i + 1, show), show)
  {
    var t, k, key := TreeOf(o[i].val, show), MembersTail(o, i + 1, show), ItemsOf(o[i].key);
    assert o[i..][0] == o[i] && o[i..][1..] == o[i + 1..];
    var m := Member([], key, [], Elem([], t, []));
    TailOfCons(m, MembersOf(o[i + 1..], show));
    MembersTextPlain(m, MembersOf(o[i + 1..], show));
    hide Text, MembersText, ItemsText;
    TextThen(t, k);
    ItemsTextThen(key, [COLON] + Text(t, k));
    Assoc([QUOTE], ItemsText(key, []), [COLON] + Text(t, k));
  }

  lemma MembersTextPlain(m: Member, ms: seq<Member>)
    requires m.pre == [] && m.mid == [] && m.val.pre == [] && m.val.post == []
    ensures MembersText([m] + ms, []) ==
            [QUOTE] + ItemsText(m.key, [COLON] + Text(m.val.t,
              if ms == [] then [RBRACE] else [COMMA] + MembersText(ms, [])))
  {
    TailOfCons(m, ms);
    var k := if ms == [] then [RBRACE] else [COMMA] + MembersText(ms, []);
    assert [] + k == k && [RBRACE] + [] == [RBRACE];
    var c := [COLON] + Text(m.val.t, k);
    assert [] + Text(m.val.t, k) == Text(m.val.t, k) && [] + c == c;
    assert [] + ([QUOTE] + ItemsText(m.key, c)) == [QUOTE] + ItemsText(m.key, c);
  }

  method DumpJson(v: Json, show: Show) returns (text: Bytes)
    ensures text == Dump(v, show)
  {
    var os := new Stream();
    os.Write(v, show);
    text := os.out;
  }
}

/** How deep `parse_value` calls itself, on every input, accepted or not. */
module Recursion {
  import opened Bytes
  import opened Grammar
  import opened Descent
  import opened DescentProofs

  /** The calls of `parse_value` on the stack when it is deepest, the outermost included, for an
      input whose leading blanks are skipped. */
  function Calls(s: Bytes, ok: Bytes -> bool): nat
    decreases |s|, 0
  {
    if s == [] then 1
    else if s[0] == LBRACE then
      var r := SkipWs(s[1..]);
      1 + if r != [] && r[0] == RBRACE then 0 else MembersCalls(s[1..], ok)
    else if s[0] == LBRACKET then
      var r := SkipWs(s[1..]);
      1 + if r != [] && r[0] == RBRACKET then 0 else ElemsCalls(s[1..], ok)
    else 1
  }

  function ElemsCalls(s: Bytes, ok: Bytes -> bool): nat
    decreases |s|, 2
  {
    Max(Calls(SkipWs(s), ok),
        match PElem(s, ok)
        case Ok(_, q) => if q != [] && q[0] == COMMA then ElemsCalls(q[1..], ok) else 0
        case Err(_) => 0)
  }

  function MembersCalls(s: Bytes, ok: Bytes -> bool): nat
    decreases |s|, 2
  {
    match PKey(s)
    case Err(_) => 0
    case Ok(_, b) =>
      Max(Calls(SkipWs(b), ok),
          match PElem(b, ok)
          case Ok(_, q) => if q != [] && q[0] == COMMA then MembersCalls(q[1..], ok) else 0
          case Err(_) => 0)
  }

  // ---- one step of the parser's loops ----

  lemma BracketCalls(s: Bytes, ok: Bytes -> bool)
    requires s != [] && s[0] == LBRACKET
    ensures var r := SkipWs(s[1..]);
      Calls(s, ok) == 1 + if r != [] && r[0] == RBRACKET then 0 else ElemsCalls(s[1..], ok)
  {
    hide ElemsCalls, SkipWs;
  }

  lemma BraceCalls(s: Bytes, ok: Bytes -> bool)
    requires s != [] && s[0] == LBRACE
    ensures var r := SkipWs(s[1..]);
      Calls(s, ok) == 1 + if r != [] && r[0] == RBRACE then 0 else MembersCalls(s[1..], ok)
  {
    hide MembersCalls, SkipWs;
  }

  lemma ElemCalls(s: Bytes, ok: Bytes -> bool)
    ensures ElemsCalls(s, ok) ==
            Max(Calls(SkipWs(s), ok),
                match PElem(s, ok)
                case Ok(_, q) => if q != [] && q[0] == COMMA then ElemsCalls(q[1..], ok) else 0
                case Err(_) => 0)
  {
    hide PElem, Calls, SkipWs;
  }

  lemma MemberCalls(s: Bytes, ok: Bytes -> bool)
    ensures MembersCalls(s, ok) ==
            match PKey(s)
            case Err(_) => 0
            case Ok(_, b) =>
              Max(Calls(SkipWs(b), ok),
                  match PElem(b, ok)
                  case Ok(_, q) => if q != [] && q[0] == COMMA then MembersCalls(q[1..], ok) else 0
                  case Err(_) => 0)
  {
    hide PElem, PKey, Calls, SkipWs;
  }

  /** Blanks in front cost no call. */
  lemma SkippedCalls(s: Bytes, ok: Bytes -> bool)
    ensures ElemsCalls(SkipWs(s), ok) == ElemsCalls(s, ok) && MembersCalls(SkipWs(s), ok) == MembersCalls(s, ok)
  {
    SkipWsTwice(s);
    ElemCalls(s, ok);
    ElemCalls(SkipWs(s), ok);
    MemberCalls(s, ok);
    MemberCalls(SkipWs(s), ok);
    hide Calls, ElemsCalls, MembersCalls, PTree, PString, SkipWs;
  }

  lemma SomeCall(s: Bytes, ok: Bytes -> bool)
    ensures Calls(s, ok) >= 1
    ensures s == [] || (s[0] != LBRACE && s[0] != LBRACKET) ==> Calls(s, ok) == 1
  {
    hide ElemsCalls, MembersCalls, SkipWs;
  }

  // ---- the bound ----

  /** On every byte string the calls are at most one more than its bytes. */
  lemma {:induction false} CallsBound(s: Bytes, ok: Bytes -> bool)
    ensures Calls(s, ok) <= |s| + 1
    decreases |s|, 0
  {
    hide PElem, PKey, WsLen;
    if s != [] && s[0] == LBRACE {
      MembersCallsBound(s[1..], ok);
    } else if s != [] && s[0] == LBRACKET {
      ElemsCallsBound(s[1..], ok);
    }
  }

  lemma {:induction false} ElemsCallsBound(s: Bytes, ok: Bytes -> bool)
    ensures ElemsCalls(s, ok) <= |s| + 1
    decreases |s|, 2
  {
    hide PTree, WsLen;
    CallsBound(SkipWs(s), ok);
    if PElem(s, ok).Ok? {
      var q := PElem(s, ok).rest;
      if q != [] { ElemsCallsBound(q[1..], ok); }
    }
  }

  lemma {:induction false} MembersCallsBound(s: Bytes, ok: Bytes -> bool)
    ensures MembersCalls(s, ok) <= |s| + 1
    decreases |s|, 2
  {
    hide PTree, PString, WsLen;
    if PKey(s).Ok? {
      var b := PKey(s).rest;
      CallsBound(SkipWs(b), ok);
      if PElem(b, ok).Ok? {
        var q := PElem(b, ok).rest;
        if q != [] { MembersCallsBound(q[1..], ok); }
      }
    }
  }

  /** `n` opening brackets and nothing else. */
  function Brackets(n: nat): Bytes { if n == 0 then [] else [LBRACKET] + Brackets(n - 1) }

  /** The bound is met, on an input that is refused: every bracket left open is one more call. */
  lemma {:induction false} BracketsNest(n: nat, ok: Bytes -> bool)
    ensures |Brackets(n)| == n && Calls(Brackets(n), ok) == n + 1 && PTree(Brackets(n), ok).Err?
  {
    if n > 0 {
      var r := Brackets(n - 1);
      BracketsNest(n - 1, ok);
      TailOfCons(LBRACKET, r);
      assert SkipWs(r) == r;
      CallsBound(r, ok);
    }
  }
}

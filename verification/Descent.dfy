/** The recursive descent of `Json::Parser` as functions on the remaining input.  Each
    returns the derivation it followed; the values C++ and Python make of a derivation are
    defined in `CppJson` and `PyJson`. */
module Descent {
  import opened Bytes
  import opened Grammar

  datatype JsonError =
    | UnexpectedEnd
    | Expected(c: byte)
    | UnterminatedObject
    | BadObject
    | UnterminatedArray
    | BadArray
    | ShortUnicode
    | BadHex
    | InvalidEscape
    | UnterminatedString
    | InvalidLiteral
    | InvalidNumber
    | TrailingData

  /** What was read and the input left after it. */
  datatype Res<+T> = Ok(v: T, rest: Bytes) | Err(e: JsonError) {
    predicate IsFailure() { Err? }
    function PropagateFailure<U>(): Res<U> requires Err? { Err(e) }
    function Extract(): (T, Bytes) requires Ok? { (v, rest) }
  }

  function WsLen(s: Bytes): (n: nat)
    ensures n <= |s|
  {
    if s == [] || !IsWs(s[0]) then 0 else 1 + WsLen(s[1..])
  }

  function Lead(s: Bytes): Bytes { s[..WsLen(s)] }

  function SkipWs(s: Bytes): (r: Bytes)
    ensures |r| <= |s|
  {
    s[WsLen(s)..]
  }

  // ---- numbers ----

  function SkipDigits(s: Bytes): (r: Bytes)
    ensures |r| <= |s|
  {
    if s == [] || !IsDigit(s[0]) then s else SkipDigits(s[1..])
  }

  predicate StartsWithDigit(s: Bytes) { s != [] && IsDigit(s[0]) }

  /** Past the sign and the integer part. */
  function SkipWhole(s: Bytes): (r: Option<Bytes>)
    ensures r.Some? ==> |r.value| < |s|
  {
    var p := if s != [] && s[0] == MINUS then s[1..] else s;
    if !StartsWithDigit(p) then None
    else if p[0] == ZERO then
      if StartsWithDigit(p[1..]) then None else Some(p[1..])
    else Some(SkipDigits(p))
  }

  function SkipFrac(s: Bytes): (r: Option<Bytes>)
    ensures r.Some? ==> |r.value| <= |s|
  {
    if s == [] || s[0] != DOT then Some(s)
    else if !StartsWithDigit(s[1..]) then None
    else Some(SkipDigits(s[1..]))
  }

  function SkipExp(s: Bytes): (r: Option<Bytes>)
    ensures r.Some? ==> |r.value| <= |s|
  {
    if s == [] || (s[0] != LOWER_E && s[0] != UPPER_E) then Some(s)
    else
      var p := if |s| > 1 && (s[1] == PLUS || s[1] == MINUS) then s[2..] else s[1..];
      if !StartsWithDigit(p) then None else Some(SkipDigits(p))
  }

  function SkipNumber(s: Bytes): (r: Option<Bytes>)
    ensures r.Some? ==> |r.value| < |s|
  {
    match SkipWhole(s)
    case None => None
    case Some(a) =>
      match SkipFrac(a)
      case None => None
      case Some(b) => SkipExp(b)
  }

  function PNumber(s: Bytes, ok: Bytes -> bool): (r: Res<Bytes>)
    ensures r.Ok? ==> |r.rest| < |s|
  {
    match SkipNumber(s)
    case None => Err(InvalidNumber)
    case Some(rest) =>
      var tok := s[..|s| - |rest|];
      if Readable(tok, ok) then Ok(tok, rest) else Err(InvalidNumber)
  }

  // ---- strings ----

  /** The body of a string, from just after its opening quote. */
  function PItems(s: Bytes): (r: Res<seq<Item>>)
    ensures r.Ok? ==> |r.rest| < |s|
  {
    if s == [] then Err(UnterminatedString)
    else if s[0] == QUOTE then Ok([], s[1..])
    else if s[0] != BACKSLASH then
      var (items, rest) :- PItems(s[1..]);
      Ok([Raw(s[0])] + items, rest)
    else if |s| == 1 then Err(UnterminatedString)
    else if s[1] == LOWER_U then
      if |s| < 6 then Err(ShortUnicode)
      else if !IsHex4(s[2..6]) then Err(BadHex)
      else
        var (items, rest) :- PItems(s[6..]);
        Ok([Uni(s[2..6])] + items, rest)
    else if EscapeOf(s[1]).None? then Err(InvalidEscape)
    else
      var (items, rest) :- PItems(s[2..]);
      Ok([Esc(s[1])] + items, rest)
  }

  function PString(s: Bytes): (r: Res<seq<Item>>)
    ensures r.Ok? ==> |r.rest| < |s|
  {
    if s == [] || s[0] != QUOTE then Err(Expected(QUOTE)) else PItems(s[1..])
  }

  // ---- values ----

  predicate Starts(s: Bytes, word: Bytes) { |word| <= |s| && s[..|word|] == word }

  /** A value whose leading blanks are already skipped. */
  function PTree(s: Bytes, ok: Bytes -> bool): (r: Res<Tree>)
    ensures r.Ok? ==> |r.rest| < |s|
    decreases |s|, 0
  {
    if s == [] then Err(UnexpectedEnd)
    else if s[0] == LBRACE then
      var r := SkipWs(s[1..]);
      if r != [] && r[0] == RBRACE then Ok(TObj(Lead(s[1..]), []), r[1..])
      else
        var (ms, rest) :- PMembers(s[1..], ok);
        Ok(TObj([], ms), rest)
    else if s[0] == LBRACKET then
      var r := SkipWs(s[1..]);
      if r != [] && r[0] == RBRACKET then Ok(TArr(Lead(s[1..]), []), r[1..])
      else
        var (es, rest) :- PElems(s[1..], ok);
        Ok(TArr([], es), rest)
    else if s[0] == QUOTE then
      var (items, rest) :- PItems(s[1..]);
      Ok(TStr(items), rest)
    else if s[0] == 0x74 || s[0] == 0x66 then
      if Starts(s, TRUE_TEXT) then Ok(TBool(true), s[4..])
      else if Starts(s, FALSE_TEXT) then Ok(TBool(false), s[5..])
      else Err(InvalidLiteral)
    else if s[0] == 0x6E then
      if Starts(s, NULL_TEXT) then Ok(TNull, s[4..]) else Err(InvalidLiteral)
    else
      var (tok, rest) :- PNumber(s, ok);
      Ok(TNum(tok), rest)
  }

  /** `ws value ws` */
  function PElem(s: Bytes, ok: Bytes -> bool): (r: Res<Elem>)
    ensures r.Ok? ==> |r.rest| < |s|
    decreases |s|, 1
  {
    var (t, r) :- PTree(SkipWs(s), ok);
    Ok(Elem(Lead(s), t, Lead(r)), SkipWs(r))
  }

  /** `ws string ws :` */
  function PKey(s: Bytes): (r: Res<(Bytes, seq<Item>, Bytes)>)
    ensures r.Ok? ==> |r.rest| < |s|
  {
    var (key, a) :- PString(SkipWs(s));
    var b := SkipWs(a);
    if b == [] || b[0] != COLON then Err(Expected(COLON)) else Ok((Lead(s), key, Lead(a)), b[1..])
  }

  /** The elements of an array up to and including its closing bracket. */
  function PElems(s: Bytes, ok: Bytes -> bool): (r: Res<seq<Elem>>)
    ensures r.Ok? ==> |r.rest| < |s| && r.v != []
    decreases |s|, 2
  {
    var (e, q) :- PElem(s, ok);
    if q == [] then Err(UnterminatedArray)
    else if q[0] == COMMA then
      var (es, rest) :- PElems(q[1..], ok);
      Ok([e] + es, rest)
    else if q[0] == RBRACKET then Ok([e], q[1..])
    else Err(BadArray)
  }

  /** The members of an object up to and including its closing brace. */
  function PMembers(s: Bytes, ok: Bytes -> bool): (r: Res<seq<Member>>)
    ensures r.Ok? ==> |r.rest| < |s| && r.v != []
    decreases |s|, 2
  {
    var (key, b) :- PKey(s);
    var (e, q) :- PElem(b, ok);
    var m := Member(key.0, key.1, key.2, e);
    if q == [] then Err(UnterminatedObject)
    else if q[0] == COMMA then
      var (ms, rest) :- PMembers(q[1..], ok);
      Ok([m] + ms, rest)
    else if q[0] == RBRACE then Ok([m], q[1..])
    else Err(BadObject)
  }

  /** `Json::parse`: one value, blanks on either side, nothing else. */
  function PText(s: Bytes, ok: Bytes -> bool): (r: Res<Tree>)
    ensures r.Ok? ==> r.rest == []
  {
    var (t, r) :- PTree(SkipWs(s), ok);
    if SkipWs(r) == [] then Ok(t, []) else Err(TrailingData)
  }
}

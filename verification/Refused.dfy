/** Exactly when the C++ responder answers, and when it answers what Python refuses. */
module Refused {
  import opened Bytes
  import opened Grammar
  import opened Descent
  import opened DescentProofs
  import opened CppJson
  import opened CppMessages
  import opened PyText
  import opened PyJson
  import opened Protocol
  import opened ProtocolProofs
  import opened Agreement
  import opened ClientQueries
  import opened Utf8

  // ---- the C++ decision, on derivations ----

  /** A string member whose bytes are `word`. */
  predicate TextIs(t: Option<Tree>, word: Bytes) { t.Some? && t.value.TStr? && ItemsValue(t.value.items) == word }

  /** The first member under `key`, if it is a string, matches. */
  predicate PatternLets(fms: seq<Member>, key: Bytes, value: Bytes, glob: Glob) {
    match FindMember(fms, key)
    case Some(TStr(items)) => glob(CStr(ItemsValue(items)), CStr(value))
    case _ => true
  }

  /** Anything but an object lets everything through. */
  predicate FilterLets(filter: Option<Tree>, o: Options, glob: Glob) {
    match filter
    case Some(TObj(_, fms)) =>
      PatternLets(fms, K_APP, o.app, glob) && PatternLets(fms, K_NAME, o.name, glob)
        && PatternLets(fms, K_HOST, o.host, glob)
    case _ => true
  }

  /** The first `type`, the first `proto` and the first `filter` are all C++ looks at. */
  predicate CppTakes(t: Tree, o: Options, glob: Glob) {
    && t.TObj? && TextIs(FindMember(t.members, K_TYPE), DISCOVER) && TextIs(FindMember(t.members, K_PROTO), PROTO)
    && FilterLets(FindMember(t.members, K_FILTER), o, glob)
  }

  lemma TextField(ms: seq<Member>, k: Bytes, word: Bytes, stod: Stod)
    requires word != []
    ensures var f := First(MemberValues(ms, stod), k);
      TextIs(FindMember(ms, k), word) <==> f.Some? && AsString(f.value) == word
  {
    FirstOf(ms, k, stod);
    hide ItemsValue, First, MemberValues, FindMember;
  }

  lemma PatternField(fms: seq<Member>, pad: Bytes, key: Bytes, value: Bytes, glob: Glob, stod: Stod)
    ensures CheckKey(Value(TObj(pad, fms), stod), key, value, glob) == PatternLets(fms, key, value, glob)
  {
    FirstOf(fms, key, stod);
    hide ItemsValue, First, MemberValues, FindMember, CStr;
  }

  lemma FilterField(t: Tree, o: Options, glob: Glob, stod: Stod)
    ensures CppMatches(o, Value(t, stod), glob) == FilterLets(Some(t), o, glob)
  {
    if t.TObj? {
      PatternField(t.members, t.pad, K_APP, o.app, glob, stod);
      PatternField(t.members, t.pad, K_NAME, o.name, glob, stod);
      PatternField(t.members, t.pad, K_HOST, o.host, glob, stod);
    }
    hide PatternLets, CheckKey, L;
  }

  lemma TakesTree(buf: Bytes, t: Tree, o: Options, stod: Stod, glob: Glob)
    requires buf != [] && PText(buf, Finite(stod)) == Ok(t, [])
    ensures CppAnswerTo(buf, o, stod, glob).Reply? <==> CppTakes(t, o, glob)
  {
    if t.TObj? {
      Names();
      ProtoWord();
      hide L, PText, CppMatches, First, MemberValues, FindMember, TextIs, FilterLets, AsString, CppAnswerTo;
      CppReads(buf, t, o, stod, glob);
      TextField(t.members, K_TYPE, DISCOVER, stod);
      TextField(t.members, K_PROTO, PROTO, stod);
      FilterMember(t.members, o, glob, stod);
    } else {
      NotAnObject(buf, t, o, stod, glob);
    }
  }

  lemma ProtoWord()
    ensures PROTO != []
  {
    Word("mu2edaq-discovery/1");
  }

  lemma FilterMember(ms: seq<Member>, o: Options, glob: Glob, stod: Stod)
    ensures var f := First(MemberValues(ms, stod), K_FILTER);
      FilterLets(FindMember(ms, K_FILTER), o, glob) <==> f.None? || CppMatches(o, f.value, glob)
  {
    hide L, CppMatches, First, MemberValues, FindMember, FilterLets;
    FirstOf(ms, K_FILTER, stod);
    if FindMember(ms, K_FILTER).Some? {
      FilterField(FindMember(ms, K_FILTER).value, o, glob, stod);
    } else {
      NoFilter(o, glob);
    }
  }

  lemma NoFilter(o: Options, glob: Glob)
    ensures FilterLets(None, o, glob)
  {
  }

  lemma NotAnObject(buf: Bytes, t: Tree, o: Options, stod: Stod, glob: Glob)
    requires PText(buf, Finite(stod)) == Ok(t, []) && !t.TObj?
    ensures CppAnswerTo(buf, o, stod, glob).Silent?
  {
    hide CppMatches, L;
  }

  function CppCut(datagram: Bytes): Bytes { datagram[..Min(|datagram|, MAX_DATAGRAM)] }

  /** C++ answers a datagram iff its first 1400 bytes derive an object, with every number
      readable, whose first `type` and `proto` are the right strings and whose first `filter`
      does not reject the application. */
  lemma CppAnswersIff(datagram: Bytes, o: Options, stod: Stod, glob: Glob)
    ensures CppAnswer(datagram, o, stod, glob).Reply? <==>
            exists t :: Derives(CppCut(datagram), t, Finite(stod)) && CppTakes(t, o, glob)
  {
    var buf := CppCut(datagram);
    hide CppTakes, Derives, PText, CppMatches, L;
    if PText(buf, Finite(stod)).Ok? {
      var t := PText(buf, Finite(stod)).v;
      AcceptsIffDerives(buf, t, Finite(stod));
      forall u | Derives(buf, u, Finite(stod)) ensures u == t { AcceptsIffDerives(buf, u, Finite(stod)); }
      NotEmptyText(buf, Finite(stod));
      TakesTree(buf, t, o, stod, glob);
    } else {
      forall u ensures !Derives(buf, u, Finite(stod)) { AcceptsIffDerives(buf, u, Finite(stod)); }
      NoAnswer(buf, o, stod, glob);
    }
  }

  lemma NoAnswer(buf: Bytes, o: Options, stod: Stod, glob: Glob)
    requires PText(buf, Finite(stod)).Err?
    ensures CppAnswerTo(buf, o, stod, glob).Silent?
  {
  }

  // ---- what Python refuses ----

  /** A raw control character in some string, which strict JSON forbids. */
  predicate RawControl(t: Tree) { exists items <- Strings(t) :: !NoControls(items) }

  /** The dict Python reads. */
  function PyRead(t: Tree): Dict
    requires t.TObj?
  {
    FromPairs(PyPairs(t.members))
  }

  /** What Python has against a datagram C++ answers. */
  predicate Objection(datagram: Bytes, t: Tree)
    requires t.TObj?
  {
    |datagram| > MAX_DATAGRAM || !IsUtf8(datagram) || RawControl(t) || !ValidMessage(PyRead(t))
  }

  lemma RefusedTree(datagram: Bytes, t: Tree, ok: Bytes -> bool)
    requires t.TObj? && (|datagram| <= MAX_DATAGRAM ==> PText(datagram, ok) == Ok(t, []))
    ensures Decoded(datagram[..Min(|datagram|, MAX_DATAGRAM + 1)]).None? <==> Objection(datagram, t)
  {
    hide PText, Wf, ValidMessage, IsUtf8, NoControls, FromPairs, Derives;
    if |datagram| <= MAX_DATAGRAM {
      Whole(datagram);
      AcceptsIffDerives(datagram, t, ok);
      Monotone(datagram, t, ok);
      AcceptsIffDerives(datagram, t, AnyNumber());
    }
  }

  lemma Monotone(s: Bytes, t: Tree, ok: Bytes -> bool)
    requires Derives(s, t, ok)
    ensures Derives(s, t, AnyNumber())
  {
    AnyNumberWf(t, ok);
  }

  /** C++ answers a datagram Python refuses iff it answers it and the datagram is longer than
      1400 bytes, is not UTF-8, holds a raw control character in a string, or reads in Python
      as a message that fails its checks. */
  lemma AnsweredThoughRefused(datagram: Bytes, o: Options, stod: Stod, glob: Glob)
    ensures Decoded(datagram[..Min(|datagram|, MAX_DATAGRAM + 1)]).None? &&
            CppAnswer(datagram, o, stod, glob).Reply? <==>
            exists t :: Derives(CppCut(datagram), t, Finite(stod)) && CppTakes(t, o, glob) && Objection(datagram, t)
  {
    CppAnswersIff(datagram, o, stod, glob);
    hide CppAnswer, Derives, Decoded, Objection, PText, FilterLets, TextIs, L;
    forall t | Derives(CppCut(datagram), t, Finite(stod)) && CppTakes(t, o, glob)
      ensures Decoded(datagram[..Min(|datagram|, MAX_DATAGRAM + 1)]).None? <==> Objection(datagram, t)
    {
      AcceptsIffDerives(CppCut(datagram), t, Finite(stod));
      if |datagram| <= MAX_DATAGRAM { assert CppCut(datagram) == datagram; }
      RefusedTree(datagram, t, Finite(stod));
    }
  }

  /** Of a message with distinct keys that C++ answers, the only check of Python's that can fail
      is the one of the id and the filter. */
  lemma DistinctObjection(datagram: Bytes, t: Tree, o: Options, glob: Glob)
    requires IsUtf8(datagram) && PText(datagram, AnyNumber()) == Ok(t, []) && Distinct(t) && CppTakes(t, o, glob)
    ensures ValidMessage(PyRead(t)) <==> ValidDiscover(PyRead(t))
  {
    var ms := t.members;
    Names();
    StringsIn(ms);
    FromDistinct(PyPairs(ms));
    assert DISCOVER != ANNOUNCE;
    hide L, Get, PText, IsUtf8, DistinctKeys, ItemsValue, PyPairs, FindMember, FilterLets, ValidDiscover, ValidAnnounce;
    forall items | items in Strings(t) ensures Decodes(items) { TextDecodes(datagram, t, items); }
    KeptText(ms, K_TYPE, DISCOVER);
    KeptText(ms, K_PROTO, PROTO);
  }

  lemma KeptText(ms: seq<Member>, k: Bytes, word: Bytes)
    requires Ascii(k) && Ascii(word) && TextIs(FindMember(ms, k), word)
    requires forall m <- ms :: Decodes(m.key) && (m.val.t.TStr? ==> m.val.t.items in Strings(m.val.t))
    requires forall items <- MemberStrings(ms) :: Decodes(items)
    ensures Get(PyPairs(ms), k) == Some(PStr(word))
  {
    GetOf(ms, k);
    FoundMember(ms, k);
    StringsIn(ms);
    hide Get, PyPairs, FindMember, ItemsValue, PyStr, Decodes;
    SameAscii(FindMember(ms, k).value.items, word);
  }
}

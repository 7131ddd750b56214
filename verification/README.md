# Verification of mu2edaq-discovery

A Dafny model of the discovery protocol: the C++ JSON codec, the messages of
`protocol.py` and `Responder.cpp`, the client's collect-and-retransmit loop, the
two responders' loops, and the network between them, with proofs of what the
protocol promises. `dafny verify dfyconfig.toml` checks all of it.

## What is modelled

**The codec.** `Grammar` is a declarative JSON grammar: a `Tree` is a derivation
that keeps every blank and every spelling, and `Text` is what it derives.
`Descent` is the recursive descent of `Json::Parser` as functions on the
remaining input, and `DescentProofs` shows that it accepts exactly the grammar.
`CppJson` says what C++ value a derivation has and which derivation `dump`
writes. `JsonParser.Parser` (one cursor, the loops of the source) and
`JsonWriter.Stream` (one output) are the imperative code, proved against these;
`RoundTrip` puts the two together. `Utf8` is section 3 of RFC 3629, and
`CodeUnits` the 16-bit shifts and masks by which the parser reads `\u` escapes.
`Recursion` gives the depth of the parser's calls on every input and bounds it, and
`Spelling` has the tables: what each escape, digit, blank and number form stands for.

**Python's reading of the same texts.** Both languages read the same derivations:
`PyText` and `PyJson` say what `json.loads` makes of one (dicts keep the last of
equal keys, adjacent surrogate escapes are joined, integers are unbounded, raw
control characters are refused) and what `json.dumps` writes. `CppToPython`
shows that Python reads back what C++ prints.

**Messages.** `Protocol` is `protocol.py` and `CppMessages` the message side of
`Responder.cpp`; `Validation` says in full what `decode` accepts; `ProtocolProofs`, `MessageSize` and `CppAnnounce` prove the round
trips, the sizes and that the two announce alike. `Agreement` and `ClientQueries`
compare the decisions of the two responders, `AgreementExact` and `Refused` say
exactly when they differ, and `Differences` and `Families` give inputs.

**The client.** `Client` gives the loop of `discover` as a fold over a script, one
turn at a time (what the clock reads, how the wait ends); `ClientTiming`,
`ClientResult`, `Ranking` and `ListOrder` prove its schedule and its result, and
`Discover.Discover` is the loop itself.

**The responders.** `PyLoop` and `CppLoop` give the log of a run (looks at the
stop flag, receives, replies, beacons) over a script that also says what the flag
reads, so that every moment at which another thread may set it is covered.
`PyLoopProofs` and `CppLoopProofs` prove stopping, beacons, replies and when an
error of `encode` leaves the Python loop; `LongIds` is a query that makes it. The classes in
`PyResponder` and `CppResponder` are the loops themselves. `Lifecycle` interleaves
the owner's `start` and `stop` with the C++ loop, and `TurnPaths` shows that every
run of that loop is one of its traces.

**The network.** In `Network` any mix of responders shares the port with one
client and any number of strangers; a packet once sent may be delivered to anyone,
any number of times, in any order, by any route, or never. `Silence` shows that no
responder answers an ANNOUNCE, whichever implementation printed it and whichever
reads it. `NetworkSafety` proves what a client can conclude from its list, `Together`
that every interleaving of the loops themselves is a run of this network, and
`EndToEnd` that a responder that answers is found.

Time is real. `stod`, `operator<<` on doubles, the two `fnmatch` functions and
`str` of values that are not strings are parameters, arbitrary functions of their
arguments; so are uuids, process ids, the resolver's answers and the times of day.

## Where the code and its documentation differ

- One valid query ends a Python responder. A `qid` is a UUID4 in `doc/PROTOCOL.md` and any
  string to `decode`, and the reply echoes it; `encode` (`responder.py:126`) stands outside
  the `try`, and the `ProtocolError` it raises for a message of more than 1400 bytes is not
  the `OSError` that is caught after it. `PyLoopProofs.CrashIff` says exactly when that error
  leaves the loop, and `LongIds.LongestIdEndsEveryRun` that a DISCOVER with an id of 1342
  plain characters always makes it. The C++ responder just sends the long reply, which the client drops
  (`EndToEnd.CppIsFound`).
- `doc/PROTOCOL.md` requires a `qid` in every DISCOVER and globs as filter values, and
  Python's `decode` rejects anything else. The C++ responder validates nothing: a
  missing `qid` is answered without one (`ClientQueries.NoIdDiffers`), and a filter that
  is not an object, an unknown key or a pattern that is not a string counts as a match.
  It also answers datagrams with raw control characters or bytes that are not UTF-8 in a
  string (`Differences.RawByteDiffers`), and those of which only the first 1400 bytes are
  JSON (`CppMessages.CutAnswersAlike`, `Differences.JunkIsAnswered`).
  `Refused.AnsweredThoughRefused` is the exact condition.
- `Responder::start` cleans up after every failure but one: when no thread can be created
  (`Responder.cpp:119`) the socket stays open, `stop` does not close it, and the next `start`
  overwrites it (`Lifecycle.ThreadFailure`, `Lifecycle.SocketsLost`).
- The C++ responder is documented as interoperating with the Python client. Of the messages
  Python accepts, as far as they are RFC 8259 texts, `AgreementExact.AlikeIff` says exactly on
  which the two may decide differently, or echo different ids: on some with repeated keys
  (`ClientQueries.TwoIdsDiffer`) and, of the others (`AgreementExact.DistinctAlikeIff`), on
  those with an escaped surrogate pair in the id or a pattern
  (`ClientQueries.AstralNameMissed`), a NUL in a pattern, where `c_str` ends
  (`Differences.NulPatternDiffers`), or a number that `stod` refuses
  (`Differences.HugeNumberDiffers`).
- An empty version is announced as `0` by Python and as it is by C++
  (`CppAnnounce.SameAnnounce`).

The model follows the code in each case.

## Model

| member | source | states |
|---|---|---|
| `JsonParser.Parse` | cpp/include/mu2edaq_discovery/Json.hpp:72-80 | Terminates on every byte string and returns the value of its one derivation, or the error the descent stops with; with `AcceptsIffDerives` this is exactly the grammar's language. |
| `JsonParser.Parser.ParseValue` | cpp/include/mu2edaq_discovery/Json.hpp:152-164 | Reads one value as the descent does, with the same value or error and the same input left; the cursor never moves back nor past the end, and moves on success; and on every input, refused or not, its calls nest exactly as deep as `Recursion.Calls` says, at most one deeper than there are bytes. |
| `JsonParser.Parser.ParseObject` | cpp/include/mu2edaq_discovery/Json.hpp:176-196 | The object loop reads the members of the derivation, in order, or stops with the same error. |
| `JsonParser.Parser.ParseArray` | cpp/include/mu2edaq_discovery/Json.hpp:198-213 | The same for arrays. |
| `JsonParser.Parser.ParseString` | cpp/include/mu2edaq_discovery/Json.hpp:215-254 | The string loop accumulates the bytes its items stand for; raw control bytes are kept. |
| `JsonParser.Parser.ReadHex4` | cpp/include/mu2edaq_discovery/Json.hpp:233-243 | Four hex digits give their 16-bit value; anything else is an error. |
| `JsonParser.Parser.ParseNumber` | cpp/include/mu2edaq_discovery/Json.hpp:280-330 | Scans the longest number token and reads it as an int64, or through `stod` when it is fractional or out of range. |
| `JsonParser.Parser.ParseBool` | cpp/include/mu2edaq_discovery/Json.hpp:269-273 | The literals `true` and `false`, and nothing else. |
| `JsonParser.Parser.ParseNull` | cpp/include/mu2edaq_discovery/Json.hpp:275-278 | The literal `null`, and nothing else. |
| `JsonParser.FractionalToken` | cpp/include/mu2edaq_discovery/Json.hpp:296-313 | The flag `is_double` is set iff the scanned token has a fraction or an exponent. |
| `DescentProofs.AcceptsIffDerives` | cpp/include/mu2edaq_discovery/Json.hpp:152-330 | A byte string is accepted with derivation `t` iff `t` derives it in the grammar of sections 2 to 7 of RFC 8259, with raw control and arbitrary bytes also allowed in strings and unreadable numbers refused; no text has two derivations. |
| `DescentProofs.TreeSound` | cpp/include/mu2edaq_discovery/Json.hpp:152-164 | What the descent reads is the text of the derivation it returns, followed by exactly the input it leaves. |
| `DescentProofs.TreeComplete` | cpp/include/mu2edaq_discovery/Json.hpp:152-330 | The text of any well-formed derivation, followed by anything that cannot extend a number, is read as that derivation and the reading stops exactly there. |
| `DescentProofs.SkipNumberComplete` | cpp/include/mu2edaq_discovery/Json.hpp:280-313 | The scan takes the whole of any `[minus] int [frac] [exp]` and stops before anything that cannot continue it. |
| `DescentProofs.SkipNumberSound` | cpp/include/mu2edaq_discovery/Json.hpp:280-313 | What the scan takes is an `[minus] int [frac] [exp]`. |
| `DescentProofs.ItemsComplete` | cpp/include/mu2edaq_discovery/Json.hpp:215-254 | Any well-formed sequence of characters and escapes up to its closing quote is read as that sequence. |
| `DescentProofs.PrefixFree` | cpp/include/mu2edaq_discovery/Json.hpp:72-80 | If a text and a prefix of it are both accepted and not both are numbers, they have the same derivation and only blanks follow the prefix. |
| `DescentProofs.BlanksAfter` | cpp/include/mu2edaq_discovery/Json.hpp:72-80 | Blanks after an accepted text change nothing. |
| `DescentProofs.NumbersAreNotPrefixFree` | cpp/include/mu2edaq_discovery/Json.hpp:280-313 | The exception is real: `1` and `12` are both accepted. |
| `Grammar.TextThen` | cpp/include/mu2edaq_discovery/Json.hpp:139-330 | What follows a text plays no part in the text. |
| `CppJson.Find` | cpp/include/mu2edaq_discovery/Json.hpp:52-57 | Lookup returns the first member with the key, and nothing for a value that is not an object. |
| `JsonWriter.Stream.WriteString` | cpp/include/mu2edaq_discovery/Json.hpp:115-136 | The character loop writes the quoted string of the canonical derivation. |
| `JsonWriter.Stream.Write` | cpp/include/mu2edaq_discovery/Json.hpp:85-113 | Writes the text of the value's canonical derivation and nothing else. |
| `JsonWriter.Stream.WriteArray` | cpp/include/mu2edaq_discovery/Json.hpp:93-100 | The same for the array loop and its commas. |
| `JsonWriter.Stream.WriteObject` | cpp/include/mu2edaq_discovery/Json.hpp:101-110 | The same for the object loop, its keys, colons and commas. |
| `JsonWriter.DumpJson` | cpp/include/mu2edaq_discovery/Json.hpp:65-69 | `dump` writes the canonical text of the value. |
| `RoundTrip.RoundTripIff` | cpp/include/mu2edaq_discovery/Json.hpp:65-136 | If its doubles print as number tokens `stod` reads, what `dump` writes parses, and to the same value iff each of them survives. |
| `RoundTrip.RoundTripDoubleFree` | cpp/include/mu2edaq_discovery/Json.hpp:65-80 | Every double-free value, with any nesting, any byte strings and any int64, is recovered exactly. |
| `RoundTrip.WholeDoubleBecomesInt` | cpp/include/mu2edaq_discovery/Json.hpp:91 | The loss is real: a double printed as `1` is read back as the integer 1. |
| `RoundTrip.ShowIntToken` | cpp/include/mu2edaq_discovery/Json.hpp:90 | The printed form of every integer is a number token whose value is that integer. |
| `RoundTrip.ItemsOfString` | cpp/include/mu2edaq_discovery/Json.hpp:115-136 | Escaping any byte string and reading it back gives the same bytes. |
| `RoundTrip.QuotedSize` | cpp/include/mu2edaq_discovery/Json.hpp:115-136 | An escaped string of `n` bytes takes between `n + 2` and `6 n + 2` bytes. |
| `RoundTrip.UnicodeEscapes` | cpp/include/mu2edaq_discovery/Json.hpp:215-267 | A string of `\u` escapes is read as the UTF-8 of its 16-bit units, which is valid and decodes to them iff no unit is a surrogate. |
| `Recursion.CallsBound` | cpp/include/mu2edaq_discovery/Json.hpp:152-213 | On every byte string, accepted or not, the calls of `parse_value` that `JsonParser.Parser.ParseValue` is proved to make nest at most one deeper than there are bytes: 1401 calls on a datagram. |
| `RoundTrip.CallsAreDepth` | cpp/include/mu2edaq_discovery/Json.hpp:152-213 | On accepted input they nest exactly as deep as the value. |
| `Recursion.BracketsNest` | cpp/include/mu2edaq_discovery/Json.hpp:198-213 | The bound is met: `n` opening brackets, which are refused, take `n + 1` calls. |
| `RoundTrip.ParsedDepth` | cpp/include/mu2edaq_discovery/Json.hpp:152-213 | Sharper on accepted texts: a value of nesting `D`, 1 for a scalar, takes at least `2 D - 1` bytes. |
| `JsonParser.Parser.ReadUnicode` | cpp/include/mu2edaq_discovery/Json.hpp:233-246 | A `\u` escape appends the UTF-8 form of its unit, surrogates included, or is an error. |
| `CodeUnits.Push` | cpp/include/mu2edaq_discovery/Json.hpp:235-243 | On 16 bits, shift-and-or adds a hex digit to what is read so far, and four of them never overflow. |
| `CodeUnits.AppendUtf8` | cpp/include/mu2edaq_discovery/Json.hpp:256-267 | The shifts and masks append the UTF-8 form of section 3 of RFC 3629, in one, two or three bytes, of any 16-bit unit. |
| `Utf8.Utf8IffNoSurrogates` | cpp/include/mu2edaq_discovery/Json.hpp:256-267 | What `append_utf8` builds from code points is valid UTF-8, and decodes to them, iff none is a surrogate. |
| `Utf8.EncodeDecode` | cpp/include/mu2edaq_discovery/Json.hpp:256-267 | Decoding any UTF-8 and encoding it again gives the same bytes: no code point has two forms. |
| `Spelling.SameInCapitals` | cpp/include/mu2edaq_discovery/Json.hpp:233-246 | A string whose `\u` escapes are put in capitals is the same string, in both languages. |
| `Spelling.UpperBack` | cpp/include/mu2edaq_discovery/Json.hpp:233-243 | Every 16-bit unit is read back from its text in capitals. |
| `Spelling.HexTable` | cpp/include/mu2edaq_discovery/Json.hpp:239-242 | The hex digits are `0` to `9`, `a` to `f` and `A` to `F`, worth 0 to 15, and there are no others. |
| `Spelling.EscapeTable` | cpp/include/mu2edaq_discovery/Json.hpp:219-232 | The parser reads the eight two-byte escapes as the bytes of section 7 of RFC 8259 and refuses every other letter but `u`. |
| `Spelling.BlankTable` | cpp/include/mu2edaq_discovery/Json.hpp:139-145 | Space, tab, newline and return may stand around a text, and no other byte may. |
| `Spelling.Words` | cpp/include/mu2edaq_discovery/Json.hpp:269-278 | `true`, `false` and `null` are read as such. |
| `Spelling.NumberForms` | cpp/include/mu2edaq_discovery/Json.hpp:280-313 | A byte string is read as a number to its end iff it is a sign or none, digits without a needless zero, a point and digits or none, and an exponent or none. |
| `Spelling.CppNumberKinds` | cpp/include/mu2edaq_discovery/Json.hpp:296-329 | Such a number is an integer iff it has no fraction and no exponent and fits 64 bits, and otherwise what `stod` makes of it. |
| `Spelling.NumberKinds` | src/mu2edaq_discovery/protocol.py:91-92 | To Python it is a float iff it has a fraction or an exponent, and otherwise an integer of any size. |
| `Spelling.CppSpelling` | cpp/include/mu2edaq_discovery/Json.hpp:115-136 | The spelling `dump` gives each byte. |
| `Spelling.PySpelling` | src/mu2edaq_discovery/protocol.py:81 | The spelling `json.dumps` gives each 16-bit unit: itself from the space to the tilde, and otherwise an escape. |
| `Spelling.PairTable` | src/mu2edaq_discovery/protocol.py:91-92 | `json.loads` joins two units iff they are a high and a low surrogate, into the character section 2.1 of RFC 2781 gives. |
| `PyText.JoinUnits` | src/mu2edaq_discovery/protocol.py:79-92 | Writing a string as 16-bit units and joining surrogate pairs again gives the string back iff it has no high surrogate directly before a low one. |
| `PyText.PyStrBack` | src/mu2edaq_discovery/protocol.py:79-92 | A Python string survives `json.dumps` and `json.loads` iff it has no such split pair. |
| `PyJson.LoadsDumps` | src/mu2edaq_discovery/protocol.py:79-92 | `loads(dumps(v)) == v` iff no string in `v`, key or value, has a split surrogate pair; it never fails. |
| `PyJson.TextUtf8` | src/mu2edaq_discovery/protocol.py:91-92 | A JSON text is UTF-8 iff each of its strings is. |
| `PyJson.StringsDecode` | src/mu2edaq_discovery/protocol.py:91-92 | On a datagram that is UTF-8 every string has code points, escapes included. |
| `PyJson.FromPairsSize` | src/mu2edaq_discovery/protocol.py:91-92 | A dict built from members has as many entries only if all keys are distinct, and then holds the members in order. |
| `CppToPython.PythonReadsCpp` | cpp/include/mu2edaq_discovery/Json.hpp:85-136 | Any double-free C++ value with UTF-8 strings and distinct keys is printed as a text Python reads as the same value. |
| `ProtocolProofs.QueryRoundTrip` | src/mu2edaq_discovery/protocol.py:47-53 | `decode(encode(m)) == m` for every query that fits, iff no string in it has a split surrogate pair; it passes its validator either way. |
| `ProtocolProofs.AnnounceRoundTrip` | src/mu2edaq_discovery/protocol.py:56-142 | The same for announces, which pass their validator iff `meta` holds only strings: `build_announce` does not check that. |
| `ProtocolProofs.AnnounceFields` | src/mu2edaq_discovery/protocol.py:56-76 | `qid` and `meta` appear iff given, and disturb no other field. |
| `Validation.DecodeIff` | src/mu2edaq_discovery/protocol.py:87-142 | `decode` returns a message iff the datagram takes at most 1400 bytes, is the JSON of that dict, and is either a DISCOVER with a string `qid` and, if any, a filter of patterns under the three keys, or an ANNOUNCE with each of nine fields of its type and, if any, a string `qid` and a `meta` of strings; all names spelled out. |
| `Validation.BuiltQuery` | src/mu2edaq_discovery/protocol.py:47-53 | A query is built iff its filter, if it has any entry, is one `decode` accepts, and then has exactly these fields, the fresh id if none or an empty one is given. |
| `Validation.BuiltAnnounce` | src/mu2edaq_discovery/protocol.py:56-76 | Every field of the ANNOUNCE that is built, and no others: an empty or missing `host`, `scheme`, `version` or `started` gives way to the host name, the application, `0` and the time. |
| `Validation.MatchIff` | src/mu2edaq_discovery/protocol.py:145-157 | No filter matches everything, a filter that is not a dict nothing, and a dict iff all its keys are among the three and each pattern is a string that matches the field. |
| `Validation.OversizeIgnored` | src/mu2edaq_discovery/responder.py:112-119 | A datagram of more than 1400 bytes is neither answered nor taken for an answer. |
| `ProtocolProofs.AnnounceValid` | src/mu2edaq_discovery/protocol.py:129-142 | What `build_announce` builds passes the validator iff its `meta` holds only strings. |
| `MessageSize.ReplySize` | src/mu2edaq_discovery/protocol.py:72-84 | Echoing an id lengthens an ANNOUNCE by 7 bytes and the quoted id; the reply is encoded iff that fits 1400 bytes. |
| `MessageSize.UuidReplyFits` | src/mu2edaq_discovery/responder.py:126 | A reply to a 36-character id is encoded, at any time, iff the unsolicited ANNOUNCE takes at most 1355 bytes. |
| `MessageSize.PyQuotedSize` | src/mu2edaq_discovery/protocol.py:81 | A quoted Python string takes 2 bytes and 1 to 12 bytes a character, exactly 1 for plain characters. |
| `MessageSize.TimeSize` | src/mu2edaq_discovery/protocol.py:70 | A new timestamp of the same length does not change the size of an ANNOUNCE. |
| `MessageSize.CppReplySize` | cpp/src/Responder.cpp:163 | The C++ printer adds the same 7 bytes and the quoted id. |
| `CppMessages.BuildAnnounce` | cpp/src/Responder.cpp:150-171 | The appended fields, the optional `qid` and the `meta` loop print exactly the announce object. |
| `CppMessages.Handle` | cpp/src/Responder.cpp:197-222 | The receive branch answers exactly when the parsed message is a DISCOVER of this protocol whose filter passes, echoing its first `qid`. |
| `CppMessages.CutAnswersAlike` | cpp/src/Responder.cpp:193-199 | A datagram that is answered is answered as its whole text would be iff it fits the 1400-byte buffer or only blanks were cut off; otherwise the whole text is not JSON, and is answered all the same. |
| `CppMessages.JunkBehind` | cpp/src/Responder.cpp:193-199 | The other case is real for every message that is answered: padded to 1400 bytes it is answered whatever follows, even where the whole text is refused. |
| `CppAnnounce.DumpUtf8Iff` | cpp/include/mu2edaq_discovery/Json.hpp:115-136 | A double-free value is printed as UTF-8 iff all its strings are. |
| `CppAnnounce.PythonDecodesAnnounce` | cpp/src/Responder.cpp:150-171 | Python's `decode` accepts an ANNOUNCE the C++ responder prints iff it takes at most 1400 bytes and every field is UTF-8, and then reads exactly the responder's fields. |
| `CppAnnounce.SameAnnounce` | cpp/src/Responder.cpp:70-76 | C++ and Python announce the same service, defaults and all, with the same message iff its version is not empty (C++ keeps the empty string, Python says `0`). |
| `Agreement.SameDerivation` | cpp/include/mu2edaq_discovery/Json.hpp:315-329 | A text Python parses is parsed by C++, with the same derivation, iff `stod` can read the numbers that need it. |
| `Agreement.FiltersAgree` | cpp/src/Responder.cpp:139-148 | The C++ `matches_filter`, which tests three keys and validates nothing, agrees with the Python one on every validated filter with distinct keys whose patterns both read alike. |
| `Agreement.RespondersAgree` | cpp/src/Responder.cpp:199-216 | On a message Python accepts as a DISCOVER, with distinct keys, no escaped surrogate pair in its id or patterns and no NUL in the patterns, C++ answers iff Python does and echoes the same id when `stod` can read the message's numbers, and is silent otherwise. |
| `AgreementExact.AlikeIff` | cpp/src/Responder.cpp:199-216 | The exact condition, whatever keys are repeated: on a message Python accepts as a DISCOVER, the two responders decide and echo alike for every application and every pair of agreeing `fnmatch` functions iff `stod` reads every number that needs it and C++, in the first of equal keys, finds the right `type` and `proto` and the id and patterns Python finds in the last. |
| `AgreementExact.DistinctAlikeIff` | cpp/src/Responder.cpp:199-216 | Without repeated keys: iff `stod` reads every number that needs it, the id has no escaped surrogate pair, and no pattern has one or a NUL. |
| `AgreementExact.SameStringIff` | cpp/include/mu2edaq_discovery/Json.hpp:233-246 | Both languages read the same string iff it has no escaped surrogate pair. |
| `AgreementExact.SamePatternIff` | cpp/src/Responder.cpp:139-148 | Both `fnmatch` calls are given the same pattern iff it has no escaped surrogate pair and no NUL. |
| `Refused.CppAnswersIff` | cpp/src/Responder.cpp:197-222 | C++ answers a datagram iff its first 1400 bytes derive an object whose numbers `stod` reads, whose first `type` and `proto` are the right strings, and whose first `filter` rejects nothing. |
| `Refused.AnsweredThoughRefused` | cpp/src/Responder.cpp:193-216 | Exactly when C++ answers what Python refuses: when it answers, and the datagram is longer than 1400 bytes, is not UTF-8, has a raw control character in a string, or fails a check of Python's. |
| `Refused.DistinctObjection` | src/mu2edaq_discovery/protocol.py:106-126 | With distinct keys the only such check that can fail is the one of the id and the filter. |
| `Differences.NulPatternDiffers` | cpp/src/Responder.cpp:139-148 | A pattern of the application's name, a NUL and more: Python rejects the application, C++ answers. |
| `Differences.HugeNumberDiffers` | cpp/include/mu2edaq_discovery/Json.hpp:315-329 | An integer beyond int64 that `stod` refuses, in a member no responder looks at: Python answers, C++ does not. |
| `Families.NulFamily` | cpp/src/Responder.cpp:139-148 | The family of `NulPatternDiffers` holds every application name, tail and id of up to 100 characters together that both languages read alike. |
| `Families.AstralFamily` | src/mu2edaq_discovery/protocol.py:47-53 | The family of `AstralNameMissed` holds every name with a character beyond U+FFFF and id of up to 100 characters together. |
| `Families.NumberFamily` | cpp/include/mu2edaq_discovery/Json.hpp:315-329 | The family of `HugeNumberDiffers` holds numbers of over a thousand digits. |
| `Differences.RawByteDiffers` | cpp/include/mu2edaq_discovery/Json.hpp:215-254 | A raw control character or a byte that is not UTF-8 in a string: C++ answers and echoes it, Python refuses. |
| `Differences.JunkIsAnswered` | cpp/src/Responder.cpp:193-199 | A DISCOVER, blanks to the end of the buffer and one letter: refused as a whole, answered as cut. |
| `ClientQueries.CppReadsString` | cpp/include/mu2edaq_discovery/Json.hpp:233-246 | C++ reads a string Python printed as its UTF-8 iff it has no character beyond U+FFFF. |
| `ClientQueries.QueryAnsweredAlike` | src/mu2edaq_discovery/protocol.py:47-53 | Every query the Python client builds that fits a datagram, whose id and patterns have no NUL, no character beyond U+FFFF and no split surrogate pair, gets the same answer from both responders for the same application when the two `fnmatch` functions agree. |
| `ClientQueries.AstralNameMissed` | cpp/src/Responder.cpp:139-148 | Beyond U+FFFF they differ: a client asking by such a name is answered by the Python responder of that name and not by the C++ one. |
| `ClientQueries.TwoIdsDiffer` | cpp/include/mu2edaq_discovery/Json.hpp:52-57 | With a repeated key they differ: Python echoes the last `qid`, C++ the first. |
| `ClientQueries.NoIdDiffers` | cpp/src/Responder.cpp:199-209 | C++ answers a DISCOVER that Python's `decode` refuses for having no `qid`: it validates nothing. |
| `Discover.Discover` | src/mu2edaq_discovery/client.py:87-136 | One call transmits at most `max(1, retries)` times, spaced and before the deadline, waits a positive time of at most `timeout` each turn, and returns, in order, the last record accepted for each id once and nothing else. |
| `ClientTiming.Transmissions` | src/mu2edaq_discovery/client.py:104-116 | At most `S = max(1, retries)` transmissions, each before the deadline, consecutive ones at least `timeout / S` apart. |
| `ClientTiming.Waits` | src/mu2edaq_discovery/client.py:117 | Every wait is positive and at most the timeout. |
| `ClientTiming.CallTransmits` | src/mu2edaq_discovery/client.py:108-117 | On a clock that counts up from zero, if every look at it is at most `d` late and `S * S * d < timeout`, all transmissions, `retries` but at least 1, happen before the deadline. |
| `ClientTiming.LatenessIsTight` | src/mu2edaq_discovery/client.py:108-117 | The bound is tight for every number of transmissions `S` and every positive timeout: with every look late by exactly `timeout / (S * S)`, one transmission is lost. |
| `ClientTiming.LoopEnds` | src/mu2edaq_discovery/client.py:108-121 | If a wait that times out lasts as long as asked, the loop takes at most `D + max(1, retries)` turns for `D` datagrams received, so any longer script reaches the deadline. |
| `ClientTiming.CallTiming` | src/mu2edaq_discovery/client.py:87-121 | One whole call, with `S` being `retries` but at least 1: at most `S` transmissions, the first at the first look at the clock, all within the timeout and `timeout / S` apart; one wait a turn, positive and at most the timeout. |
| `ClientResult.LastWins` | src/mu2edaq_discovery/client.py:133 | The dict of records has each id once, with its last value. |
| `ClientResult.CallResult` | src/mu2edaq_discovery/client.py:126-136 | The list returned holds a record once if it is the last accepted for its id and otherwise not at all, and is in order. |
| `ClientResult.NoneForgotten` | src/mu2edaq_discovery/client.py:119-133 | Whoever sends an acceptable reply that is received before the deadline is in the list. |
| `ClientResult.NoneInvented` | src/mu2edaq_discovery/client.py:119-136 | Every record in the list was accepted in some turn before the deadline, from one datagram. |
| `ClientResult.AgainIsNothing` | src/mu2edaq_discovery/client.py:133 | Receiving the latest record of an id again changes nothing, not even the order. |
| `ClientResult.OrderInsensitive` | src/mu2edaq_discovery/client.py:133-136 | If all that arrives for one id is equal and hosts or ports differ between ids, the list is the same for every order and repetition of the arrivals. |
| `ClientResult.CallsAlike` | src/mu2edaq_discovery/client.py:87-136 | So two calls to which the same replies came, in any order and number, whenever each began and whatever its query, return the same list. |
| `Ranking.SortedOrdered` | src/mu2edaq_discovery/client.py:136 | The list is a permutation of the records in the order of `Leq`, which `ListOrder.InOrder` spells out. |
| `Ranking.SortedStable` | src/mu2edaq_discovery/client.py:136 | Records of equal host and port keep the order in which their ids first came. |
| `Ranking.OneOrder` | src/mu2edaq_discovery/client.py:136 | Two ordered lists of the same records, all with different host or port, are equal. |
| `ListOrder.InOrder` | src/mu2edaq_discovery/client.py:136 | Of any two records in the list, the first has the host that sorts before, by code point, or the same host and a port at most as large. |
| `ListOrder.TiesByArrival` | src/mu2edaq_discovery/client.py:133-136 | Two of one host and port stand in the order in which their ids were first accepted. |
| `PyResponder.Responder.Run` | src/mu2edaq_discovery/responder.py:88-133 | The loop makes the log of `PyLoop.Log`, closes its socket exactly when it ends, sends at most once after the stop flag is set, and answers every query it is to answer and no other. |
| `PyResponder.Responder.OneTurn` | src/mu2edaq_discovery/responder.py:101-130 | One turn: beacon if due, one receive, at most one reply. |
| `PyLoopProofs.AtMostOneAfterStop` | src/mu2edaq_discovery/responder.py:101-130 | Wherever in a run the stop flag is set, at most one more datagram is sent. |
| `PyLoopProofs.BeaconTiming` | src/mu2edaq_discovery/responder.py:96-113 | With instant local work, beacons are at least the interval and at most the interval and 0.75 s apart, whatever queries arrive; the first comes after one interval. |
| `PyLoopProofs.BeaconsGoOut` | src/mu2edaq_discovery/responder.py:96-113 | And they do come: whenever the loop of a run that has not ended looks at the clock, none is outstanding, so there is one for every interval and 0.75 s that has passed. |
| `PyLoopProofs.NoMoreRepliesThanQueries` | src/mu2edaq_discovery/responder.py:117-130 | Replies never outnumber the DISCOVERs delivered. |
| `PyLoopProofs.RepliesAreGood` | src/mu2edaq_discovery/responder.py:112-130 | Every reply in a run goes to the source of the query received just before it and is the ANNOUNCE that echoes its id. |
| `PyLoopProofs.QueriesAreAnswered` | src/mu2edaq_discovery/responder.py:112-130 | Conversely in every run a query received while the flag is clear is followed by its reply, to its source and echoing its id, if the filter passes; by the error of `encode` if that reply does not fit; and by neither if it is not to be answered. |
| `PyLoopProofs.AllReceived` | src/mu2edaq_discovery/responder.py:110-115 | Every datagram that arrives in a turn the run reaches is received, unless the turn ends before. |
| `PyLoopProofs.NextBeacon` | src/mu2edaq_discovery/responder.py:102-113 | However long sending takes, the next beacon comes no sooner than the interval after the clock read behind the last. |
| `PyLoopProofs.SolicitedOnly` | src/mu2edaq_discovery/responder.py:96-99 | With an interval of zero, the default, there are no beacons. |
| `PyLoopProofs.CrashIff` | src/mu2edaq_discovery/responder.py:88-133 | A `ProtocolError` of `encode` leaves the loop iff some turn it reaches has a beacon due that does not fit 1400 bytes, or answers an id for which the bare ANNOUNCE, 7 bytes and the quoted id together do not. |
| `LongIds.LongIdIsFatal` | src/mu2edaq_discovery/responder.py:117-126 | A valid query with a plain id of `n <= 1342` bytes ends the loop of any Python responder that receives it iff the bare ANNOUNCE takes more than `1391 - n` bytes, or a beacon does first. |
| `LongIds.LongestIdEndsEveryRun` | src/mu2edaq_discovery/responder.py:126 | With 1342 bytes every run that receives it ends with that error, whatever the service and the time. |
| `LongIds.QuerySize` | src/mu2edaq_discovery/protocol.py:47-53 | The query with such an id takes 58 bytes more than the id, so it fits a datagram iff `n <= 1342`. |
| `PyLoopProofs.UuidQueriesSurvive` | src/mu2edaq_discovery/responder.py:102-126 | When all query ids are UUIDs, an unsolicited announce of at most 1355 bytes keeps that error away. |
| `CppResponder.Responder.Run` | cpp/src/Responder.cpp:173-240 | The loop makes the log of `CppLoop.Log`, sends at most twice after the stop flag is set, and answers every query it is to answer, if its sending socket opened, and no other. |
| `CppResponder.Responder.OneTurn` | cpp/src/Responder.cpp:189-237 | One turn: one receive, at most one reply, then a beacon if due. |
| `CppResponder.Responder.Start` | cpp/src/Responder.cpp:80-120 | There is a thread iff the socket opens, binds and joins the group and the thread can be created; after each of the first three failures no socket is left open, after the last one the socket stays open with no thread. |
| `CppResponder.Responder.Stop` | cpp/src/Responder.cpp:122-137 | If there is a thread, what is left of the loop runs to its end, whose last act is to see the flag, and no thread and no socket are left; if there is none, nothing happens, even with a socket open. |
| `CppLoopProofs.AtMostTwoAfterStop` | cpp/src/Responder.cpp:189-237 | Wherever in a run the stop flag is set, at most two more datagrams are sent. |
| `CppLoopProofs.TwoAfterStop` | cpp/src/Responder.cpp:195-237 | And two it can be: a reply and a beacon. |
| `CppLoopProofs.BeaconTiming` | cpp/src/Responder.cpp:187-236 | The same pace as the Python responder, but the first beacon comes within 0.75 s of the start. |
| `CppLoopProofs.BeaconsGoOut` | cpp/src/Responder.cpp:187-236 | And they do come, if the sending socket opened. |
| `CppLoopProofs.NoMoreRepliesThanQueries` | cpp/src/Responder.cpp:197-222 | Replies never outnumber the DISCOVERs delivered. |
| `CppLoopProofs.RepliesAreGood` | cpp/src/Responder.cpp:193-216 | Every reply in a run goes to the source of the query received just before it and echoes its id. |
| `CppLoopProofs.QueriesAreAnswered` | cpp/src/Responder.cpp:193-222 | Conversely in every run, whatever the interval, a query received while the flag is clear is followed by its reply iff it is to be answered and the sending socket opened. |
| `CppLoopProofs.AllReceived` | cpp/src/Responder.cpp:189-197 | Every datagram that arrives in a turn the run reaches is received. |
| `CppLoopProofs.NeverBeacons` | cpp/src/Responder.cpp:225-236 | With an interval of zero, the default, or no sending socket there are no beacons. |
| `ResponderLog.FewSendsAfter` | cpp/src/Responder.cpp:189-195 | A loop that makes at most `n` sends between looks at the flag, and stops when it sees it set, makes at most `n` after it is set, whenever that is. |
| `Lifecycle.SocketOpenIffJoinable` | cpp/src/Responder.cpp:80-137 | Over every interleaving of calls and loop, between calls the socket is open iff there is a thread to join, if and only if the last `start` did not fail to create its thread; and no socket is closed under a receive. |
| `Lifecycle.SocketsLost` | cpp/src/Responder.cpp:80-137 | Over every interleaving, the sockets open between calls are one for the thread, if there is one, and one for each thread that could not be created: these are never closed, whatever is called. |
| `Lifecycle.ThreadFailure` | cpp/src/Responder.cpp:118-137 | The failing run: the first `start` cannot create its thread, `stop` finds no thread and returns, and the next `start` forgets the socket. |
| `Lifecycle.NothingAfterStop` | cpp/src/Responder.cpp:122-137 | Once `stop` has returned nothing is sent until the next `start`. |
| `Lifecycle.AtMostTwoLate` | cpp/src/Responder.cpp:122-137 | Over every interleaving the loop sends at most two datagrams after `stop` sets the flag. |
| `Lifecycle.StopEnds` | cpp/src/Responder.cpp:122-137 | `stop` waits for at most three steps of the loop. |
| `Lifecycle.ThreadEndsItself` | cpp/src/Responder.cpp:122-137 | A thread is gone only once its loop has seen the flag and ended. |
| `TurnPaths.TurnIsPath` | cpp/src/Responder.cpp:189-237 | Every turn of the loop, with the flag set at any moment its log allows, is a path through the steps of `Lifecycle` that says the turn's events one step at a time. |
| `TurnPaths.RunIsTrace` | cpp/src/Responder.cpp:80-240 | Every run of the loop is a trace of `Lifecycle` that says exactly its log, counts the datagrams sent and those sent after the flag, and is over iff a turn saw the flag. |
| `Silence.PyIgnoresPy` | src/mu2edaq_discovery/responder.py:117-122 | A Python responder does not answer a Python ANNOUNCE. |
| `Silence.PyIgnoresCpp` | src/mu2edaq_discovery/responder.py:117-122 | Nor a C++ one, even one too long or not UTF-8. |
| `Silence.CppIgnoresPy` | cpp/src/Responder.cpp:197-203 | A C++ responder does not answer a Python ANNOUNCE. |
| `Silence.CppIgnoresCpp` | cpp/src/Responder.cpp:193-203 | Nor a C++ one, not even one its buffer cuts short. |
| `LoopsAreNodes.PyLoopIsNode` | src/mu2edaq_discovery/responder.py:101-130 | Everything the Python loop sends is what a node of the network model may send. |
| `LoopsAreNodes.CppLoopIsNode` | cpp/src/Responder.cpp:189-237 | Everything the C++ loop sends is what a node of the network model may send. |
| `Network.NodesIgnoreAnnounces` | cpp/src/Responder.cpp:197-203 | No responder in either language answers anything any responder sends. |
| `Network.InvHolds` | src/mu2edaq_discovery/client.py:103-136 | Every step of every run, with loss, repetition and reordering, keeps the provenance of packets, replies owed and records. |
| `NetworkSafety.Safety` | src/mu2edaq_discovery/client.py:118-133 | In every run of any mix of responders, every record held was sent by a responder, passes the client's filter, and either answers this very query, echoing its id, or carries no id. |
| `NetworkSafety.ReturnedSafely` | src/mu2edaq_discovery/client.py:118-136 | The same for every record in the list `discover` returns, when the datagrams its loop receives are packets of the run. |
| `Together.InterleavingIsRun` | src/mu2edaq_discovery/client.py:103-136 | Any interleaving of the logs of any responders' loops, a client and strangers, in which every datagram received was sent before, is a run of the network model: it sends the same datagrams from the same addresses, pays each reply to the query it answers, and leaves the client with the records its own loop finds. |
| `Together.ListIsSafe` | src/mu2edaq_discovery/client.py:118-136 | So in every such interleaving of the loops themselves, every record in the list `discover` returns was sent by one of the responders, passes the filter, and either answers this very query, echoing its id, or carries no id. |
| `NetworkSafety.DepthTwo` | cpp/src/Responder.cpp:197-221 | Every reply in every run was caused by a client's datagram, never by an ANNOUNCE, and goes to its source; replies never exceed DISCOVER deliveries. |
| `NetworkSafety.OwnQueryIgnored` | src/mu2edaq_discovery/client.py:126 | The client never takes its own query for an answer. |
| `NetworkSafety.QidUnsplit` | src/mu2edaq_discovery/responder.py:126 | An id Python has read is echoed without loss. |
| `EndToEnd.PythonIsFound` | src/mu2edaq_discovery/client.py:118-133 | A Python responder that answers a client's query, with a reply that fits a datagram and the host name it matched by, is accepted with exactly the fields it sent iff its `meta` holds only strings and no string it sends has a split surrogate pair. |
| `EndToEnd.CppIsFound` | src/mu2edaq_discovery/client.py:118-133 | A C++ responder that answers any query of the Python client echoes the 16-bit units of its id, and its reply is accepted, with its own fields, iff it fits a datagram, all it says is UTF-8, the id has no surrogate and no character beyond U+FFFF, and the client's own test of its filter passes. |
| `EndToEnd.CppFilterPasses` | cpp/src/Responder.cpp:139-148 | For ids and patterns without NUL, split pair or character beyond U+FFFF, agreeing `fnmatch` functions and fields that are UTF-8 without NUL, the responder answers iff that test passes. |
| `EndToEnd.PythonBeaconIsHeard` | src/mu2edaq_discovery/client.py:124-133 | The periodic ANNOUNCE of a Python responder, which has no id, is accepted with the fields it was built with iff its `meta` holds only strings, no string in it has a split surrogate pair, and the filter passes it. |
| `EndToEnd.CppBeaconIsHeard` | src/mu2edaq_discovery/client.py:124-133 | That of a C++ responder is accepted with its own fields iff it fits a datagram, is UTF-8, and the filter passes it. |

## Left out

- Sockets, `setsockopt`, interfaces, TTL, name resolution and IGMP: sends and receives are steps of a script or of the network model. A socket error other than a timeout is not modelled; an error from `sendto`, which both loops ignore, counts as a send whose packet is lost.
- `send_all` sends to the group and to each broadcast address; one transmission stands for all of them, since any packet may be delivered by any number of routes.
- Glob matching: one arbitrary predicate a language, related where the two responders are compared (`Agreement.GlobsAgree`).
- Floating point: a C++ double is its bit pattern and a Python float the token it was read from; only `stod` and `operator<<` look inside.
- `NaN`, `Infinity` and `-Infinity`, which Python's `json` also accepts, and the `RecursionError` it raises on deep nesting, which nothing catches; texts here are RFC 8259 texts, and the only exception modelled is the `ProtocolError` of `encode`.
- A memory failure or a stack overflow in the C++ parser: `Recursion.CallsBound` bounds its calls by the size of the input, accepted or not; how many the stack holds is not modelled.
- CppResponder.Responder.Stop: the caller and the loop take turns there, the loop running what is left of its script at the join; `Lifecycle` interleaves them.
- The empty datagram `stop` sends to its own port to wake the loop: to the loop it is one more datagram that is not JSON.
- Arguments of the wrong types to `build_query` and `build_announce`: names, ids and patterns are strings, ports integers, `meta` and `filter` dicts; `meta` values and filter entries may be anything, because `decode` and `_validate_filter` check those.
- `char` is compared as an unsigned byte; every comparison in the parser is with an ASCII constant, where signed and unsigned agree.
- The Python `stop` waits at most two seconds for the thread, so no claim is made about what is sent after it returns beyond the one datagram.
- `parse_broadcast_setting`, the command line, the graphical browser, shell scripts, build files and man pages: settled by reading branches.
- Thread scheduling within one statement: the loop and the owner interleave at looks at the flag, receives and sends.
- The time local work takes: the bounds on beacons are the receive timeout and the jitter alone.
- A resolver that changes its answer between a responder's filter match and its reply.

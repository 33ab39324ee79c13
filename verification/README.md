# Corrlog: canonical JSON, correction chains, and the stores around them

Corrlog records what an agent did, what it got wrong and what it did not know, as signed JSON
records. A correction points at the record it amends by identifier and by the SHA-256 digest of that
record's canonical bytes, so a list of records forms a chain that can be checked offline. Everything
that is signed or hashed goes through one canonicaliser in the style of RFC 8785. This project
models that canonicaliser, the records and chains built on it, the second verifier that must agree
with the first, the append-only JSONL file, and the guard that admits each record once.

## How it is organised

* Numbers. `Binary64` holds doubles as sign, mantissa and exponent, with round to nearest, ties to
  even, on exact rationals. `Decimal`, `Shortest` and `Existence` treat decimal digits and the
  shortest digits that round-trip. `Numeral` is the JSON number grammar and Python's scanner for it.
  `Numbers` holds the rewriting of `repr` texts, `NumberLaws` the laws about it, `GoNumber` the Go
  formatter.
* Canonical JSON. `KeyOrder` compares keys, `Json` has the values, `JsonWriter` and `JsonParser` are
  `json.dumps` and `json.loads`, `RoundTrip` and `Prefixes` relate them, `NormalForm` says what a
  canonical text determines, `Render` is the canonicaliser as it runs, `Encoding` its last step,
  `Faithful` what survives a trip through JSON. `Grammar` has the JSON texts as syntax trees,
  `Reader` proves that `json.loads` reads exactly those, `Compact` that the writers choose the
  shortest spellings and that blanks do not matter.
* Records and chains. `Base64` and `Seeds` are the encodings of bytes and keys. `Records` has the
  schema and the verdict on one record, `Schema` the schema document it stands for, `Equality`
  Python's `==`, `Chains` the chain verifier, `Binding` what an accepted chain commits to,
  `Builders` and `Constructors` how records are made,
  `Runs` and `Commitments` what is true of the records that were made, `Admissible` which arguments
  the constructors accept, `Contents` what they write, member by member.
* Around them. `Standalone` and `SecondVerifier` are the other verifier, `JsonlSink` the file,
  `JsonLines` what it reads of other writers' lines, `Journal` a run of records kept in it,
  `Replay` the admission guard.

Strings are sequences of code points in which lone surrogates may occur; a dictionary is a list of
members in insertion order with distinct keys (`Proper`). Code that changes things in place is a
method proved against a function: the output list of the renderer, the digit strings of the number
layout, the Go byte buffer, the dictionaries of the constructors, the loops of both chain verifiers,
the file and the admission table.

What the libraries do is assumed only as far as their contracts go, and the assumptions are named:
`ReprLaw` (`repr` of a float spells its shortest closest digits in Python's float grammar), `GoLaw`
(Go's formatter finds the same digits), `Lawful` (sizes of keys, digests and signatures, and that an
honest signature verifies), `Rfc8785Law` (the rfc8785 library renders values without integers and
tuples as RFC 8785 says). Nothing is assumed of SHA-256 beyond its size: where a theorem would need
it to be injective, it exhibits two different byte strings with one digest instead.
`Existence.LawsConsistent` shows that the assumptions can hold together.

Three places where the code does not do what is written about it; the model follows the code.

* The docstring of `JsonlSink` says that `all()` skips unparseable lines instead of raising and that
  earlier history never becomes unreadable. `JsonlSink.ReadFileRaises` says exactly on which bytes it
  raises, `BadByteRaises` gives one, `BadByteStays` shows a whole history lost for good, and
  `OwnFileReads` that bytes from elsewhere are needed for that.
* A record is meant to commit to its arguments through their hashes. Metadata is copied first and a
  hash written only when the argument is given, so `HashShadowed` shows a record that does not;
  `RecordCommits` says exactly which do, and `CarefulRecordCommits` how a caller can see to it.
* `load_private_key` documents bare base64url seeds, but a text that happens to start with `sk_` or
  `priv_` loses those characters first and is refused: `Seeds.BareSeedRefused`.
  `Seeds.Base64SeedLoads` says exactly which seeds load.

## Model

| member | source | states |
|---|---|---|
| Binary64.RoundNearest | corrlog_core/__init__.py:97-108 | the model of `float(n)` and of reading a decimal: no binary64 grid point is nearer than the rounding, and a tie goes to the even mantissa |
| Shortest.ShortestUnique | corrlog_core/__init__.py:135-174 | the shortest digits that round-trip, closest of those, even of two such, are unique for every magnitude |
| Existence.ShortestExists | corrlog_core/__init__.py:135-174 | such digits exist for every nonzero finite double |
| Existence.LawsConsistent | corrlog_core/__init__.py:135-174 | the assumptions made of `repr`, SHA-256, Ed25519 and the rfc8785 library can all be met at once |
| Existence.GoLawConsistent | validation/vectors/jcs-testdata/numgen.go:119-136 | the assumption made of Go's shortest formatting can be met |
| Numeral.EsTextSpells | corrlog_core/__init__.py:164-174 | each of the five layouts is a number of RFC 8259 section 6 with the sign, digits and exponent ECMA-262 section 7.1.12.1 assigns |
| Numeral.EsTextDenotes | corrlog_core/__init__.py:164-174 | the layout denotes exactly d * 10^q in every one of its five forms |
| Numbers.SplitDigits | corrlog_core/__init__.py:146-156 | the split of a repr text at `e` and `.` gives the digit string and the decimal point position of the number it spells |
| Numbers.LayOut | corrlog_core/__init__.py:164-174 | the text laid out in place from digits and a point position n denotes exactly the number with those digits and the point after the n-th, and is the spelling of the JSON numeral ECMA-262 assigns to it |
| Numeral.EsLayoutDenotes | corrlog_core/__init__.py:164-174 | every one of the five layouts, scanned as a JSON number, is read whole and has the magnitude of its digits |
| Numbers.StripIsTrim | corrlog_core/__init__.py:158-162 | stripping zeros on both sides of the digit string moves exactly the trailing zeros of the number into the exponent |
| Numbers.Relay | corrlog_core/__init__.py:135-174 | for every text of the float-repr grammar with a nonzero value, the step by step rewrite ends in a text that scans whole as a JSON number with the sign and the magnitude of the text it began with |
| Numbers.RelaidDenotes | corrlog_core/__init__.py:135-174 | the rewrite preserves meaning: its result denotes the same rational as the repr text |
| Numbers.RelaidUnique | corrlog_core/__init__.py:135-174 | two repr texts of nonzero numbers are rewritten to one text exactly when they have the same sign and the same magnitude |
| Numbers.JcsDouble | corrlog_core/__init__.py:135-174 | `_jcs_double` computes that text, `0` for both zeros, and raises on NaN and the infinities |
| Numbers.JcsInteger | corrlog_core/__init__.py:97-108 | `_jcs_integer` gives the text of the nearest double, or raises when there is none |
| Numbers.JcsNumber | corrlog_core/__init__.py:70-94 | `_jcs_number` dispatches ints and floats to the same specification |
| NumberLaws.TextOfDouble | corrlog_core/__init__.py:135-174 | the text of a nonzero double is the ECMA-262 layout of its shortest closest digits |
| NumberLaws.ReprIndependent | corrlog_core/__init__.py:135-174 | any two `repr` implementations that meet the contract give the same texts |
| NumberLaws.WireClosure | corrlog_core/__init__.py:70-174 | the text of a finite double is a JSON number, is scanned whole, reads back (as int or float) to the same double up to the sign of zero, and serialises to the same text again |
| NumberLaws.TextsDistinct | corrlog_core/__init__.py:135-174 | two finite doubles share a text exactly when they are equal up to the sign of zero |
| NumberLaws.FastForm | validation/harness/jcs_candidate.py:46-94 | for every integer below 2^53 in magnitude, `str(n)` is the core's float-then-layout text |
| NumberLaws.EsNumber | validation/harness/jcs_candidate.py:46-94 | the candidate's number path returns the core's text, or fails with it, on every number |
| NumberLaws.GuardExact | corrlog_core/__init__.py:111-132 | the guard accepts an integer if and only if it is m * 2^e with \|m\| < 2^53, e >= 0 and magnitude below 2^1024 |
| NormalForm.GuardMeans | corrlog_core/__init__.py:111-132 | the guard refuses a value exactly for an integer somewhere inside it that is no binary64 value; nothing else is refused |
| NumberLaws.IntegerRange | corrlog_core/__init__.py:97-108 | `float(n)` raises exactly when \|n\| >= 2^1024 - 2^970 |
| NumberLaws.GuardInjective | corrlog_core/__init__.py:111-132 | guarded integers are told apart by the doubles they become |
| GoNumber.Buffer.AppendNumber | validation/vectors/jcs-testdata/numgen.go:119-136 | the buffer, extended, overwritten and shrunk in place, ends as the old buffer followed by the Python text of the double |
| GoNumber.FormatChoice | validation/vectors/jcs-testdata/numgen.go:119-136 | choosing the layout by magnitude against the constants 1e-6 and 1e21 and trimming `e-0X` gives the text chosen by decimal exponent |
| Shortest.PowerThreshold | validation/vectors/jcs-testdata/numgen.go:119-136 | a double is below the double nearest 10^j exactly when its shortest decimal is below 10^j |
| KeyOrder.KeyOrderIsUnitOrder | corrlog_core/__init__.py:210-217 | comparing UTF-16BE bytes is comparing sequences of code units |
| KeyOrder.KeyOrderTotal | corrlog_core/__init__.py:210-217 | on surrogate-free keys the order is total and strict |
| KeyOrder.KeyOrderTransitive | corrlog_core/__init__.py:210-217 | the order is transitive |
| KeyOrder.KeyOrderVersusCodePoints | corrlog_core/__init__.py:210-217 | it agrees with code point order exactly unless the first difference pits an astral character against one in U+E000 to U+FFFF |
| KeyOrder.SurrogatesCollide | corrlog_core/__init__.py:210-217 | why surrogate-free: a lone pair and the astral character it spells have the same sort key |
| RoundTrip.StringBack | corrlog_core/__init__.py:43-67 | reading an escaped string stops at the first unescaped quote, which is the closing one, whatever follows, and gives the string back |
| Render.EscapeString | corrlog_core/__init__.py:43-67 | the loop over characters returns the quoted escape exactly for surrogate-free strings and raises on all others |
| Compact.EscapeIsShortest | corrlog_core/__init__.py:37-67 | the escape of a string is determined: however a string may be spelled in JSON, no spelling is shorter, and none of the same length has lower-case hexadecimal digits but this one; the same holds of `json.dumps` among the printable spellings |
| Compact.NoShorterBody | corrlog_core/__init__.py:37-67 | the same of the reader: what it reads as s before a closing quote is at least as long as the escaped s |
| RoundTrip.ValueBack | corrlog_core/__init__.py:177-207 | parsing the text of a value, whatever follows it, gives its wire form and stops where it ends |
| RoundTrip.LoadsBack | corrlog_core/__init__.py:220-231 | `json.loads` of a whole serialised value gives its wire form |
| JsonParser.UniqueObject | verifier/standalone.py:121-127 | the object hook builds the dictionary of the pairs and raises exactly when a key repeats |
| Reader.LoadsExactly | corrlog_core/__init__.py:716-734 | `json.loads` accepts exactly the texts of the grammar of RFC 8259 with NaN and the infinities, between blanks; with the key hook, those that repeat no key |
| Reader.LoadsDoc | corrlog_core/__init__.py:716-734 | what a syntax tree spells, with any blanks, escapes and letter case, is read as what it means: nearest doubles, exact integers, joined surrogate escapes, the last of repeated keys |
| Reader.DocOfLoads | corrlog_core/__init__.py:716-734 | whatever is read was spelled by a tree that means it |
| Reader.BlanksFound | corrlog_core/__init__.py:716-734 | what the reader skips is the longest prefix of spaces, tabs and line ends |
| Compact.BlanksIrrelevant | corrlog_core/__init__.py:716-734 | blanks between tokens change nothing |
| Compact.WriteIsBare | corrlog_core/__init__.py:177-207 | the two serialisations are trees without blanks |
| Compact.SpacedLoads | corrlog_core/__init__.py:698-724 | blanks inserted between the tokens of a serialised value leave its reading as it was |
| Compact.DefaultSeparators | tests/test_release_security.py:142-143 | `json.dumps` with its default separators is read like the compact form |
| Render.Number | validation/harness/jcs_candidate.py:97-129 | core and candidate number paths return the same text |
| Render.RenderValue | corrlog_core/__init__.py:177-207 | appending to the output list adds exactly the canonical text, and fails exactly on values without one, for core and candidate alike |
| Render.RenderDict | corrlog_core/__init__.py:188-198 | an object is written as its members in key order |
| Render.RenderMember | corrlog_core/__init__.py:188-198 | one escaped key, a colon and the canonical text of its value |
| Render.RenderItems | corrlog_core/__init__.py:199-205 | lists and tuples are written alike |
| Render.CanonicalJson | corrlog_core/__init__.py:220-231 | `canonical_json` of the core and of `jcs_candidate.py` give the same bytes, or both fail, on every JSON value |
| NormalForm.CanonicalExists | corrlog_core/__init__.py:177-231 | `canonical_json` raises exactly on a lone surrogate in a string or key, an integer of 2^1024 - 2^970 or more in magnitude, a float that is not finite, or a foreign object, wherever it is in the value |
| NormalForm.DumpsExists | corrlog_core/__init__.py:698-698 | `json.dumps` raises exactly on a foreign object, wherever it is in the value |
| Render.BytesInjective | corrlog_core/__init__.py:220-231 | two canonicalisable values have the same canonical bytes exactly when they have the same normal form |
| NormalForm.CanonicalReadsBack | corrlog_core/__init__.py:177-231 | parsing canonical text gives a value with the same normal form that canonicalises to the same text |
| NormalForm.CanonicalInjective | corrlog_core/__init__.py:177-231 | canonical texts are equal exactly when normal forms are |
| NormalForm.OrderIrrelevant | corrlog_core/__init__.py:188-198 | the insertion order of members never matters |
| NormalForm.PlainReadsBack | corrlog_core/__init__.py:698-698 | `json.dumps` then `json.loads` keeps the canonical text of everything that has one |
| NormalForm.GuardSeparates | corrlog_core/__init__.py:111-132 | two guarded trees that differ only in integers never share a canonical text |
| Encoding.Utf8Injective | corrlog_core/__init__.py:220-231 | the final UTF-8 encoding loses nothing |
| Encoding.DecodeUtf8Iff | corrlog_core/__init__.py:716-734 | the strict decoder accepts exactly the encodings of surrogate-free texts, and inverts them |
| Encoding.AsciiAppended | corrlog_core/__init__.py:691-734 | ASCII bytes put after any bytes neither repair nor spoil them, and decode to themselves after what those decode to |
| Faithful.FaithfulLoads | corrlog_core/__init__.py:698-724 | `json.loads(json.dumps(v))` is v exactly when v holds no tuple and no high surrogate directly before a low one |
| Prefixes.NoPrefixParses | corrlog_core/__init__.py:716-734 | no proper prefix of a serialised object is JSON |
| JsonlSink.FragmentRead | corrlog_core/__init__.py:716-734 | a whole line reads as its record, a nonempty strict fragment as one damaged line |
| JsonLines.LineReads | corrlog_core/__init__.py:721-730 | a line with one JSON text between spaces of any kind is read as what the text means |
| JsonLines.LineReadsOnly | corrlog_core/__init__.py:721-730 | no line that does not hold one JSON text between spaces is read as a record |
| JsonLines.LineEnds | corrlog_core/__init__.py:720-721 | a line feed, a carriage return and the two together each end one line |
| JsonLines.ForeignLine | tests/test_release_security.py:142-143 | a line that another writer of JSON added to whole lines is read as what it means, after the earlier reading |
| JsonLines.SpacedRecordRead | tests/test_release_security.py:142-143 | a record written with other separators is read as that record |
| JsonLines.GluedRecords | corrlog_core/__init__.py:700-706 | why a torn tail is closed first: two records on one line are one damaged line |
| JsonlSink.ReadFileRaises | corrlog_core/__init__.py:716-734 | against the docstring, `all()` raises: exactly on files whose bytes are the UTF-8 of no surrogate-free text |
| JsonlSink.BadByteRaises | corrlog_core/__init__.py:668-684 | a concrete file of one byte on which it does |
| JsonlSink.FileChunkRead | corrlog_core/__init__.py:691-708 | from a file of any bytes, torn tail included, whatever part of an append reaches it decides nothing about raising, leaves the earlier reading unchanged and counts for itself |
| JsonlSink.RunReads | corrlog_core/__init__.py:691-734 | over every run of complete and torn appends, from a file of any bytes, the reader raises at the end exactly when it raised at the start, and otherwise returns what was there and then exactly the records whose text reached the file, in order, and counts the fragments |
| JsonlSink.OwnFileReads | corrlog_core/__init__.py:668-734 | a file that only this sink wrote, with whatever crashes, never makes `all()` raise |
| JsonlSink.BadByteStays | corrlog_core/__init__.py:668-734 | one byte 0xFF after any history makes all of it unreadable, through every later append |
| JsonlSink.Sink.Append | corrlog_core/__init__.py:691-708 | the new bytes are the old ones, a newline if the last byte is not one, the line and a newline; a record json.dumps refuses leaves the file alone |
| JsonlSink.Sink.All | corrlog_core/__init__.py:716-734 | the loop returns the parsed lines and sets `damaged_lines`; it raises exactly where decoding the bytes does, and then leaves the count of the last call |
| JsonlSink.AppendThenAll | corrlog_core/__init__.py:691-734 | `all()` after `append(r)` is `all()` before, followed by r, with `damaged_lines` unchanged; it raises after exactly when it raised before |
| Journal.KeptVerdict | corrlog_core/__init__.py:591-734 | a list of canonicalisable records that the file kept verifies, under every key and checkpoint, as the list itself does |
| Journal.RunJournalled | corrlog_core/__init__.py:298-734 | the first n records of a run, appended among any torn appends, are read back without an exception and accepted under the signer's key, and with the run's own checkpoint exactly when none is missing |
| Base64.EncodedShape | corrlog_core/__init__.py:294-295 | the text of n bytes has ceil(4n/3) characters of the URL alphabet (43 for 32, 86 for 64) |
| Base64.DecodeEncode | corrlog_core/__init__.py:543-549 | CPython's decoder, strict or lenient, inverts the encoder |
| Base64.LenientSkips | corrlog_core/__init__.py:271-276 | the lenient decoder reads a text as it reads its characters of the alphabets and its padding alone, and skips padding that ends no group |
| Base64.AlphabetsAlike | corrlog_core/__init__.py:271-276 | the URL alphabet and the standard one are read alike |
| Base64.PaddingEnds | corrlog_core/__init__.py:543-549 | padding that completes a group ends the text: the lenient decoder ignores what follows, the strict one refuses it; without padding both refuse |
| Base64.B64UrlInjective | corrlog_core/__init__.py:294-295 | different bytes have different texts |
| Base64.DecodeExactIff | corrlog_core/__init__.py:543-549 | the exact decoder succeeds if and only if the text is the encoding of some bytes of the given size, and returns them |
| Base64.DecodeExactRefuses | corrlog_core/__init__.py:543-549 | what it accepts holds no padding, no `+` or `/`, and no stray trailing bits |
| Seeds.HexSeedLoads | corrlog_core/__init__.py:251-284 | every 32-byte seed is recovered from hexadecimal in either case, bare or under any documented prefix |
| Seeds.Base64SeedLoads | corrlog_core/__init__.py:251-284 | and from base64url under any documented prefix; the bare text is recovered exactly when it does not itself start with `sk_` or `priv_` |
| Seeds.BareSeedRefused | corrlog_core/__init__.py:251-284 | a concrete seed whose bare text is refused |
| Seeds.ForeignCharacters | corrlog_core/__init__.py:261-284 | a prefixed base64url seed with foreign ASCII characters in it loads exactly when its whole length, which decides the padding, is no multiple of four |
| Seeds.HexSpaceSkipped | corrlog_core/__init__.py:277-281 | whitespace between the bytes of a hexadecimal seed does not matter |
| Seeds.NonAsciiRefused | corrlog_core/__init__.py:271-284 | a text that is not ASCII loads as no seed |
| Records.SchemaOfNormal | corrlog_core/__init__.py:570-576 | the record schema cannot tell values with the same normal form apart |
| Schema.SchemaMeans | corrlog_core/schema/acr-v1.json:1-340 | the schema document, as keywords with the meaning JSON Schema 2020-12 gives them, accepts exactly the values that the predicate on records accepts |
| Records.VerifyMeans | corrlog_core/__init__.py:517-540 | a record verifies exactly when it meets the schema, is canonicalisable, and some key and signature whose encodings it carries sign its canonical bytes with the signature text emptied, the agent and the caller agreeing on the key if they name one |
| Contents.PayloadMeans | corrlog_core/__init__.py:536-537 | what is checked is the record with its signature text emptied and nothing else changed |
| Chains.VerifyOfSimilar | corrlog_core/__init__.py:517-540 | records with the same canonical form get the same verdict under every key |
| Chains.PointsIsLink | corrlog_core/__init__.py:611-615 | on verified records the two comparisons of the loop, with Python's `==`, decide the link |
| Chains.ExpectedIsCheckpoint | corrlog_core/__init__.py:616-625 | the type check and the dictionary comparison accept exactly the three members length, genesis and head |
| Contents.CheckpointMade | corrlog_core/__init__.py:579-588 | a checkpoint is the length and the digests of the canonical bytes of the first and the last record |
| Contents.CheckpointMet | corrlog_core/__init__.py:616-625 | an accepted chain meets a checkpoint exactly when a key is given and the checkpoint has those three members, in any order, and no others |
| Chains.TrueEqualsOne | corrlog_core/__init__.py:619-625 | without the type check `True` would pass for the length of a one-record chain; with it, it does not |
| Equality.EqualDicts | corrlog_core/__init__.py:612-625 | Python's dictionary equality is equality of size and of every member of one side |
| Chains.VerifyChain | corrlog_core/__init__.py:591-628 | the loop over records with its `seen` set returns True exactly for a nonempty list of verified records with distinct identifiers, rooted and linked, that meets the checkpoint if one is given |
| Chains.ChainOfSimilar | corrlog_core/__init__.py:591-628 | replacing records by others with the same canonical form changes no verdict, with any checkpoint |
| Binding.PastBound | corrlog_core/__init__.py:591-628 | canonically equal records at i and j of two accepted chains force i == j and equal pasts, or exhibit, some steps back, two different canonical byte strings with one digest |
| Binding.HeadBinds | corrlog_core/__init__.py:579-588 | the head digest alone fixes length, genesis and every record, or a collision is exhibited |
| Binding.CheckpointBinds | corrlog_core/__init__.py:579-628 | a chain accepted with a checkpoint is, canonically, the chain the checkpoint was made from, or a collision is exhibited |
| Binding.SubchainIsPrefix | corrlog_core/__init__.py:599-615 | an accepted list of records that all occur canonically in an accepted chain is canonically a prefix of it; nothing is assumed of the digest |
| Binding.PrefixAccepted | corrlog_core/__init__.py:599-615 | every nonempty prefix of an accepted chain is accepted |
| Binding.AcceptedViews | corrlog_core/__init__.py:599-615 | of the lists made of an accepted chain's records exactly its nonempty prefixes are accepted |
| Binding.ChainKinds | corrlog_core/schema/acr-v1.json:227-339 | in an accepted chain only the first record can be an action or a declaration of uncertainty, and every later one is a correction with a nonempty reason, an action and a fix |
| Builders.Draft.Sign | corrlog_core/__init__.py:500-511 | signing fills in the signature block, signs the body with an empty signature text, stores the text, validates; raises exactly when a step does |
| Constructors.Record | corrlog_core/__init__.py:298-361 | the dictionary filled in place is the specified body, signed |
| Constructors.Retract | corrlog_core/__init__.py:364-443 | the same for `retract`, with its argument checks and the pointer to the prior record |
| Constructors.Unknown | corrlog_core/__init__.py:446-497 | the same for `unknown` |
| Contents.RecordMade | corrlog_core/__init__.py:322-361 | the whole record of `record`, member by member: texts given or default, both hashes, the rest of the metadata as the caller gave it, and a signature of the canonical bytes with its own text empty |
| Contents.UnknownMade | corrlog_core/__init__.py:475-497 | the whole record of `unknown` |
| Contents.RetractMade | corrlog_core/__init__.py:409-443 | the whole record of `retract`: the identifier and digest it points at, the action type it inherits, the fix with the hash of its content |
| Contents.RecordHashes | corrlog_core/__init__.py:348-356 | `inputHash` and `outputHash` are the digests of the canonical bytes of a dictionary, of `str(x)` of anything else |
| Contents.RetractHash | corrlog_core/__init__.py:432-437 | the content hash of a correction is the digest of the canonical bytes of a dictionary, of `str(x)` of anything else |
| Contents.DictHashes | corrlog_core/__init__.py:290-291 | dictionaries with one normal form have one hash; with one hash they have one normal form, or a digest collision is exhibited |
| Contents.RetractInherits | corrlog_core/__init__.py:421-421 | a correction carries the type of the action it amends, and `unknown` where that record names none |
| Contents.RunInherits | corrlog_core/__init__.py:298-443 | along a whole run every correction carries the type of the opening action |
| Runs.SignedVerifies | corrlog_core/__init__.py:500-540 | a signed record verifies without a key and under the signer's key, and under no other |
| Runs.RetractLinks | corrlog_core/__init__.py:411-420 | a correction links to the verified record it was made from |
| Admissible.SignedIff | corrlog_core/__init__.py:500-511 | signing returns exactly when the body passes the number guard, the canonicaliser and the schema, and the key identifier is nonempty and surrogate-free |
| Admissible.RecordReturns | corrlog_core/__init__.py:298-361 | `record` returns exactly on these arguments: nonempty identifiers and action type, surrogate-free texts, an accepted timestamp, guarded and canonicalisable content and metadata |
| Admissible.UnknownReturns | corrlog_core/__init__.py:446-497 | `unknown` returns exactly on the like, with a nonempty subject |
| Admissible.RetractReturns | corrlog_core/__init__.py:364-443 | `retract` of a verified record returns exactly on the like, with trigger, fix type and source among the choices and a nonempty reason and source reference; nothing about the prior record matters |
| Admissible.RunReturns | corrlog_core/__init__.py:298-443 | a whole run returns exactly when each of its calls was given such arguments |
| Admissible.RunsExist | corrlog_core/__init__.py:298-443 | for every key and every length there is a run that returns, with fresh identifiers |
| Runs.RunAccepted | corrlog_core/__init__.py:298-628 | the records of `record` or `unknown` followed by any number of `retract` calls on the last record are accepted exactly when identifiers are fresh and the key is absent or the signer's, and then with their own checkpoint |
| Runs.TravelKeepsVerdict | corrlog_core/__init__.py:591-628 | writing every record out, plainly or canonically, and parsing it again changes no verdict |
| Runs.RunTravels | corrlog_core/__init__.py:298-628 | a run's chain still passes under the signer's key and its original checkpoint after every record was serialised and re-parsed |
| Commitments.RecordCommits | corrlog_core/__init__.py:298-361 | records of `record` with the same canonical bytes come from the same signer and arguments, whatever the metadata; hashed arguments come from equal bytes or exhibit a clash, except exactly when one caller omitted the argument and had its hash in the metadata under that name |
| Commitments.CarefulRecordCommits | corrlog_core/__init__.py:349-353 | the condition a caller can check: when an omitted argument leaves its name unused in the metadata, the commitment holds outright |
| Commitments.HashShadowed | corrlog_core/__init__.py:349-353 | the exception is real for `inputHash`, `outputHash` and both at once: metadata that already holds the hashes makes the same record without the arguments |
| Commitments.RetractCommits | corrlog_core/__init__.py:364-443 | corrections with the same canonical bytes amend canonically the same prior record for the same reason, trigger, fix, source and content, or exhibit a clash |
| Commitments.UnknownCommits | corrlog_core/__init__.py:446-497 | uncertainty records with the same canonical bytes come from the same arguments |
| Standalone.DoubleDomain | verifier/standalone.py:24-52 | mapping to doubles keeps the normal form, leaves no integer or tuple, and fails only on values the core cannot canonicalise |
| Standalone.BytesAgree | verifier/standalone.py:55-56 | the second canonicaliser gives the core's bytes, or fails with it, on every value |
| Standalone.PayloadExists | verifier/standalone.py:70-88 | a record that meets the schema is canonicalisable exactly when its unsigned payload is, so the core's extra canonicalisation decides nothing |
| SecondVerifier.VerdictParts | verifier/standalone.py:70-88 | the core's verdict regrouped in the order the second verifier takes it |
| SecondVerifier.VerifyRecord | verifier/standalone.py:70-88 | the verdict is the core's `verify` for every record and optional key; the mismatch reasons are given exactly when they apply |
| SecondVerifier.VerifyChain | verifier/standalone.py:91-118 | the verdict is the core's `verify_chain` for every input, key and checkpoint |
| Replay.AdmitAcrossRestart | corrlog_core/replay.py:14-35 | a guard reopened on the database of another keeps every row: of two calls for one identifier, one before and one after the restart, at most one returns True, and the first one's canonical bytes are still stored |
| Replay.ReplayGuard.Accept | corrlog_core/replay.py:19-35 | one call returns True exactly when a key is given, the record verifies under it and its identifier is new, and then adds exactly its row |
| Replay.KeyNeeded | corrlog_core/replay.py:24-35 | over every interleaving no call gets past its check without a key the frozen record verifies under |
| Replay.RowSigner | corrlog_core/replay.py:24-35 | every stored row names, in its signature block, the key its admission was given |
| Replay.NeverStuck | corrlog_core/replay.py:19-35 | no reachable call is stuck, whatever the others do |
| Replay.LockLive | corrlog_core/replay.py:29-35 | no lock is ever lost: whoever holds it is about to commit or to be rolled back |
| Replay.MutatedAfterCopy | corrlog_core/replay.py:20-27 | a caller that changes its record after the copy has the frozen one admitted |
| Replay.StepInv | corrlog_core/replay.py:14-35 | every step of every call, caller mutation, lock timeout, rollback, crash and restart keeps the invariant |
| Replay.AtMostOnce | corrlog_core/replay.py:19-35 | over every interleaving at most one call returns True for an identifier |
| Replay.RowOrigin | corrlog_core/replay.py:29-35 | each stored row is the canonical bytes of the frozen record that verified in the one call that committed it |
| Replay.ResultsMean | corrlog_core/replay.py:29-35 | a call that returned True left its row behind; a verified record is turned away only when its identifier is stored |
| Replay.RowsFixed | corrlog_core/replay.py:14-35 | no later step changes or removes a row |
| Replay.FrozenOrigin | corrlog_core/replay.py:20-27 | what a call froze is what its caller held at the copy, whatever the caller did later |
| Replay.AloneAccepts | corrlog_core/replay.py:19-35 | undisturbed, the steps have the effect of one accepting call |
| Replay.AloneRefuses | corrlog_core/replay.py:19-35 | undisturbed, they have the effect of one refusing call |

## Left out

- Proper: Python dictionaries with keys that are not strings are not modelled; both canonicalisers raise on them.
- `json.loads` limits on nesting depth and on the number of digits of an integer literal, and the recursion limit of the renderer.
- JsonlSink: a concurrent writer between two writes of one append, and the operating system's buffering; a torn append is any prefix of its bytes.
- JsonParser.ParseValue: the refusal of NaN and Infinity literals by the reader of the standalone tool is not modelled; the duplicate-key hook is.
- Ed25519, SHA-256, SQLite, `uuid4` and the clock: functions and arguments with the stated assumptions; a public key object is its 32 bytes.
- Replay.Step: an INSERT under SQLite's write lock, the refusal of a duplicate and the commit are single steps; waiting for the lock is the absence of a step, its timeout an exception.
- The format check of timestamps is an arbitrary predicate; of JSON Schema only the keywords that `acr-v1.json` uses are modelled.
- Builders.ContentBytes: `str(x).encode()` of an argument that is not a dictionary is an arbitrary partial function.
- Aliasing between the caller's metadata and the record: the code copies it, and the model's values cannot be aliased.
- `MemorySink`, the framework adapters, the command lines, `independent_verifier.py`, `numgen.js` and the generator of `numgen.go`.

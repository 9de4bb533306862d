# Verified models of the shared client packages

Dafny models of the parts of the repository whose behaviour is hardest to see from the code, each with the property it
is there for. `dafny verify dfyconfig.toml` checks the whole project.

The modules follow the source. Code that works by updating an object is a class whose methods are proved against a
function of the old state, and the theorems are about that function; protocols between workers, tabs or the two ends of
a port are transition systems whose steps may come in any order.

**Mail headers** (`packages/crypto/src/jsmimeparser`). `HeaderText`, `HeaderFolding` and `HeaderPhrases` are the line
folder and everything printed through it; `HeaderEmitterObject` is the emitter object. `EncodedWords`, `WordSplitting`
and `ContentDecoders` are the encoded-words of RFC 2047 and the base64 and quoted-printable decoders. `WordDecoding` is
the decoding of a whole header value, with one decoder for words in a row; by `WordRoundTrip` a folded header of
encoded-words decodes to its text. `HeaderTokens` and `AddressParser` are the tokenizer and the address reader,
`WordReading` is how the tokenizer finds encoded-words among the addresses. `AddressMachine`, `AddressForms`,
`AddressTracking` and `AddressRoundTrip` lead to `AddressRoundTrip.AddressesRoundTrip`: reading what was printed gives
the list back, however it was folded. The proof runs the reader alongside the printer: at each moment it says in which
state the reader would be after the text printed so far, and shows that the white space of a later fold cannot be told
from that of the line. `Continuations` is the assembly of the continued parameters of RFC 2231. Its segment numbers are
converted to doubles (`Doubles`), so that two of them can become the same from 2^53 on; `Continuations.AllOrdersAgree`
says exactly when the order of the segments matters.

**MIME** (`rawMimeParser.js`). `MimeText` has the scanning, `MimeTree` what a message means as one text (section 5.1.1
of RFC 2046), `MimeStream` the parser as a function of its state, `MimeParserObject` the parser object.
`MimeAgreement.StreamingAgrees` says that the parser delivers exactly the events of the whole text however the text is
cut, and `MimeBrackets` that its events are well bracketed without any condition. The first theorem has two conditions,
and there are inputs for which the cutting does change what is delivered. One is a lone CR whose LF comes in the next
buffer (`MimeText.ConditionCuts` is exact). The other is several CRs in a row in a multipart: what it withholds is then
not the last line alone (`MimeText.WithholdIsLastLine` is exact). This shows when it is never closed and such CRs end it
(`MimeLimits.DoubleCRMatters`), and when it is inside another one, from which it may get an empty packet
(`MimeLimits.NestedLosesCR`). `MimeClean` is the condition on the text that shuts these out: CRs in a row in headers, in
bodies, and in the parts of a closed multipart that is not inside another one do no harm. A message without multiparts
always meets it (`MimeClean.WithoutMultiparts`), and so does text whose line ends are LF or CRLF
(`MimeAgreement.PlainLineEnds`). The code's own comment on packet conditioning says that a final CR is always withheld;
it is not when it is the whole buffer, and the model follows the code.

**Numbers and SRP** (`bigInteger.ts`, `srp.ts`, `forwarding.ts`). `Integers` proves Fermat's little theorem, `Bytes` the
place-value facts. `BigInteger` has modular exponentiation, the extended Euclidean algorithm, inverses and the octet
codecs; `Srp.LoginSucceeds` is section 2.6 of RFC 5054: client and host agree on the key and on both proofs although the
client reduces its exponent modulo N - 1. `Forwarding` is the proxy factor. `modExp` documents its result as the
residue; it is JavaScript's remainder, sign included, except that the modulus -1 with exponent 0 gives 1.

**Keys in workers** (`KeyStores`, `WorkerPool`): any number of workers, each with its own store and queue, behave as one
store. **Streams over ports** (`StreamPort`), **token refresh** over tabs and requests, the refresh call being one of
them (`TokenRefresh`), the **connectivity observer** with its three timers (`Connectivity`), **zone arithmetic**
(`ZonedTime`) and **log order and retention** (`LogStore`, `LogOrder`) are each stated over every run.

## Model

| member | source | states |
|---|---|---|
| BigInteger.Mod | packages/crypto/src/pmcrypto/bigInteger.ts:16-19 | the result is congruent to a; for a positive modulus it is the residue in [0, m) |
| BigInteger.ModExp | packages/crypto/src/pmcrypto/bigInteger.ts:28-48 | square and multiply gives the remainder of b^e by n, for all signs, if and only if not n = -1 with e = 0; which inputs throw which error |
| BigInteger.Egcd | packages/crypto/src/pmcrypto/bigInteger.ts:62-96 | for all integers the first result is the greatest common divisor and a·x + b·y equals it |
| BigInteger.ModInv | packages/crypto/src/pmcrypto/bigInteger.ts:106-112 | succeeds if and only if the operands are coprime and n is not 0, with an inverse, which for positive n lies in [0, n) |
| BigInteger.InverseUnique | packages/crypto/src/pmcrypto/bigInteger.ts:98-112 | the inverse returned is the only one in [0, n) |
| BigInteger.ByteLength | packages/crypto/src/pmcrypto/bigInteger.ts:132-141 | the least positive number of octets that hold x, also for negative x |
| BigInteger.Uint8ArrayToBigInt | packages/crypto/src/pmcrypto/bigInteger.ts:7-14 | the hexadecimal string built and parsed back is the big-endian value of the octets |
| BigInteger.BigIntToUint8Array | packages/crypto/src/pmcrypto/bigInteger.ts:149-172 | the array is the place-value octets of x in either order, of the length asked for or else the least that holds x; too short a length drops the high octets; for a negative x they are those of -x after a zero octet, or with the first one negated modulo 256 when that has a single digit |
| BigInteger.ReverseInPlace | packages/crypto/src/pmcrypto/bigInteger.ts:167-169 | the in-place reversal for little-endian output |
| BigInteger.CodecRoundTrip | packages/crypto/src/pmcrypto/bigInteger.ts:149-172 | decoding the encoded octets gives x if and only if x is below 256^length, in both orders |
| BigInteger.ByteLengthDecides | packages/crypto/src/pmcrypto/bigInteger.ts:132-141 | a nonzero length loses nothing if and only if it is at least what byteLength reports |
| Integers.Fermat | packages/crypto/src/srp/srp.ts:160-162 | a^(p-1) is 1 modulo a prime p that does not divide a, on which the reduced exponent rests |
| Integers.PowExponentReduce | packages/crypto/src/srp/srp.ts:160-162 | reducing an exponent modulo p - 1 changes no residue for such a base |
| Forwarding.ComputeProxyParameter | packages/crypto/src/pmcrypto/key/forwarding.ts:22-38 | fails if and only if the forwardee's secret is not coprime to the group order; else the octets are a k in [0, n) with k·dC congruent to dB, exact from 32 octets on |
| Forwarding.ProxyFactorUnique | packages/crypto/src/pmcrypto/key/forwarding.ts:28-35 | no other k in range does |
| Srp.LittleEndianArrayToBigInteger | packages/crypto/src/srp/srp.ts:18-18 | reversing and decoding gives the little-endian value |
| Srp.GenerateParameters | packages/crypto/src/srp/srp.ts:35-48 | the ephemeral value is g^a mod N and the scrambling parameter the hash of both public values in full length |
| Srp.GetParameters | packages/crypto/src/srp/srp.ts:53-73 | the first attempt with usable values, or none after the last |
| Srp.SafeUnlessScramblingZero | packages/crypto/src/srp/srp.ts:62-64 | for an odd prime an attempt is refused if and only if its scrambling parameter is 0 |
| Srp.UnitModulusIsUnsafe | packages/crypto/src/srp/srp.ts:54-72 | the modulus 1 never gets past the retries, so the exponent is never reduced modulo 0 |
| Srp.SharedSessionKey | packages/crypto/src/srp/srp.ts:159-162 | the client's four lines of arithmetic compute the client's key of the protocol |
| Srp.GenerateProofs | packages/crypto/src/srp/srp.ts:82-180 | which error each bad input gives, in order; else the proofs and key of the protocol |
| Srp.EphemeralGuard | packages/crypto/src/srp/srp.ts:126-150 | section 2.5.3 of RFC 5054 asks for an abort if and only if N divides the server's value; the error for that value comes exactly then, if and only if the value is not a positive multiple of N |
| Srp.ModulusPassesGuard | packages/crypto/src/srp/srp.ts:148-150 | the octets of N itself are not refused |
| Srp.GenerateVerifier | packages/crypto/src/srp/srp.ts:222-234 | the octets of g^x mod N |
| Srp.KeysAgree | packages/crypto/src/srp/srp.ts:113-124 | for an odd prime N and B congruent to kv + g^b, the client's key with its reduced exponent equals the host's (A·v^u)^b mod N |
| Srp.LoginSucceeds | packages/crypto/src/srp/srp.ts:136-180 | with the registered verifier both sides have the same key octets and each proof is the one the other side computes |
| HeaderEmitterObject.StringHandler.DeliverData | packages/crypto/src/jsmimeparser/headerEmitter.js:787-789 | appends what is delivered |
| HeaderEmitterObject.HeaderEmitter.constructor | packages/crypto/src/jsmimeparser/headerEmitter.js:80-119 | the margins the emitter starts with: the soft one clamped to 30..900, the hard one to softMargin..998 |
| HeaderEmitterObject.HeaderEmitter.CommitLine | packages/crypto/src/jsmimeparser/headerEmitter.js:169-197 | the line delivered, what continues, and the breakpoint that is forgotten |
| HeaderEmitterObject.HeaderEmitter.ReserveTokenSpace | packages/crypto/src/jsmimeparser/headerEmitter.js:207-244 | breaks at the preferred breakpoint, then at the end of the line, and says whether there is room |
| HeaderEmitterObject.HeaderEmitter.AddText | packages/crypto/src/jsmimeparser/headerEmitter.js:257-271 | the object runs the folder's AddText, or throws where it does |
| HeaderEmitterObject.HeaderEmitter.AddQuotable | packages/crypto/src/jsmimeparser/headerEmitter.js:286-313 | quotes and escapes exactly when a character asks for it, and remembers the last space as a breakpoint |
| HeaderEmitterObject.HeaderEmitter.AddPhrase | packages/crypto/src/jsmimeparser/headerEmitter.js:329-372 | prints whole, in words, or encoded, as the folder model does |
| HeaderEmitterObject.HeaderEmitter.AddRFC2047Word | packages/crypto/src/jsmimeparser/headerEmitter.js:385-412 | adds the encoded-word of the chunk, in base64 or quoted |
| HeaderEmitterObject.HeaderEmitter.QpWord | packages/crypto/src/jsmimeparser/headerEmitter.js:393-408 | the loop over the octets builds the quoted encoded-word |
| HeaderEmitterObject.HeaderEmitter.EncodeRFC2047Phrase | packages/crypto/src/jsmimeparser/headerEmitter.js:423-497 | the loop with its counters and backtracking ends, and adds the words of WordSplitting |
| HeaderEmitterObject.HeaderEmitter.AddHeaderName | packages/crypto/src/jsmimeparser/headerEmitter.js:508-514 | ends the line before unless it is blank, and adds the name |
| HeaderEmitterObject.HeaderEmitter.AddAddress | packages/crypto/src/jsmimeparser/headerEmitter.js:557-590 | reserves room, prints the name, and the address in angle brackets or bare |
| HeaderEmitterObject.HeaderEmitter.AddMembers | packages/crypto/src/jsmimeparser/headerEmitter.js:607-628 | the members of a group, separated by commas |
| HeaderEmitterObject.HeaderEmitter.AddEntry | packages/crypto/src/jsmimeparser/headerEmitter.js:616-626 | one mailbox, or a group with its colon and semicolon |
| HeaderEmitterObject.HeaderEmitter.AddAddresses | packages/crypto/src/jsmimeparser/headerEmitter.js:607-628 | the whole list, or nothing more after a throw |
| HeaderEmitterObject.HeaderEmitter.AddUnstructured | packages/crypto/src/jsmimeparser/headerEmitter.js:638-646 | prints nothing for the empty text, else a phrase that is never quoted |
| HeaderEmitterObject.EmitAddressHeader | packages/crypto/src/jsmimeparser/headerEmitter.js:805-811 | an address header emitted without a throw begins with its name and colon, and what follows reads back as the same list, for every reader that leaves printable text alone, names outside ASCII included if it decodes encoded-words |
| HeaderFolding.AddTextAdds | packages/crypto/src/jsmimeparser/headerEmitter.js:257-271 | adds exactly the non-space characters given, at the end; throwing, none |
| HeaderFolding.BreakKeeps | packages/crypto/src/jsmimeparser/headerEmitter.js:169-197 | breaking where no preferred breakpoint is passed keeps the line invariant |
| HeaderFolding.ReserveKeeps | packages/crypto/src/jsmimeparser/headerEmitter.js:207-244 | after making room either the soft margin holds or no preferred breakpoint is left inside the line |
| HeaderFolding.AppendKeeps | packages/crypto/src/jsmimeparser/headerEmitter.js:257-271 | appending within the hard margin keeps the invariant |
| HeaderFolding.AddHeaderNameKeeps | packages/crypto/src/jsmimeparser/headerEmitter.js:508-514 | a new header keeps the invariant and adds exactly its name |
| HeaderPhrases.PhraseKeeps | packages/crypto/src/jsmimeparser/headerEmitter.js:329-372 | phrases keep the invariant in all three ways of printing them, throwing or not |
| HeaderPhrases.EntriesKeep | packages/crypto/src/jsmimeparser/headerEmitter.js:607-628 | address lists do |
| HeaderPhrases.LinesAreFolded | packages/crypto/src/jsmimeparser/headerEmitter.js:169-271 | after any calls, no line delivered exceeds the hard margin, and one beyond the soft margin has no preferred breakpoint strictly inside |
| HeaderPhrases.DeliveredIsWritten | packages/crypto/src/jsmimeparser/headerEmitter.js:740-745 | a finished run of names, texts and ends delivers exactly the non-space characters written, in order |
| HeaderPhrases.EncodeNeverThrows | packages/crypto/src/jsmimeparser/headerEmitter.js:423-497 | printing encoded-words never throws |
| EncodedWords.Utf8IsShaped | packages/crypto/src/jsmimeparser/headerEmitter.js:462-470 | in the octets of a text no more than three continuation octets follow a first one, so the backtracking ends |
| EncodedWords.SplitUtf8 | packages/crypto/src/jsmimeparser/headerEmitter.js:468-470 | cutting before an octet that is no continuation splits the text between two characters |
| EncodedWords.QpDecodes | packages/crypto/src/jsmimeparser/utils.js:11-29 | the Q branch of the decoder undoes the Q branch of the encoder, and the payload has no question mark |
| EncodedWords.ReadWritten | packages/crypto/src/jsmimeparser/headerParser.js:434-476 | a word written in either encoding is read as UTF-8 and its octets |
| WordSplitting.NextWordKeeps | packages/crypto/src/jsmimeparser/headerEmitter.js:462-483 | every word after the first split ends further on than it starts, so the loop makes progress in spite of stepping back |
| WordSplitting.WordsReadBack | packages/crypto/src/jsmimeparser/headerEmitter.js:423-497 | the words read back, one by one, as pieces of the text in UTF-8 that together make up the text |
| WordSplitting.WordsFitTheLine | packages/crypto/src/jsmimeparser/headerEmitter.js:441-483 | the first word fits the room given and every later one is at most softMargin - 1 long |
| WordDecoding.DecodeText | packages/crypto/src/jsmimeparser/textDecoders.js:28-40 | decoding the UTF-8 of a text gives the text and keeps nothing back, streaming or not |
| WordDecoding.FindLastToken | packages/crypto/src/jsmimeparser/headerParser.js:523-529 | the last component that starts like an encoded-word, or none |
| WordDecoding.DecodeRFC2047Words | packages/crypto/src/jsmimeparser/headerParser.js:419-560 | the loop over the components, with its decoder carried from word to word, gives the decoded value or throws as the model does |
| WordDecoding.WithoutMark | packages/crypto/src/jsmimeparser/headerParser.js:521-559 | a value without "=?" stays as it is, or becomes empty if it is all white space; the tokenizer relies on it |
| WordRoundTrip.LaidDecodes | packages/crypto/src/jsmimeparser/headerParser.js:434-559 | any words of UTF-8 with nothing but white space around them decode to the joined text of all, less a byte order mark at its beginning |
| WordRoundTrip.EncodedRoundTrip | packages/crypto/src/jsmimeparser/headerEmitter.js:423-497 | a text printed as encoded-words under a header name, folded for any margins, decodes to the text less a byte order mark at its beginning |
| WordRoundTrip.UnstructuredRoundTrip | packages/crypto/src/jsmimeparser/headerEmitter.js:638-646 | an unstructured header outside ASCII reads back as its text with white space collapsed, if and only if that does not begin with a byte order mark |
| ContentDecoders.AtobOfBtoa | packages/crypto/src/jsmimeparser/headerEmitter.js:410-410 | decoding the base64 of octets gives them back (section 4 of RFC 4648) |
| ContentDecoders.BtoaDecodes | packages/crypto/src/jsmimeparser/utils.js:41-59 | so does the tolerant decoder |
| ContentDecoders.ChunksDecode | packages/crypto/src/jsmimeparser/rawMimeParser.js:783-794 | decoding chunk by chunk with the remainder carried over, and a flush at the end, decodes the whole groups of the digits in all the chunks |
| ContentDecoders.ChunkedBase64IsWhole | packages/crypto/src/jsmimeparser/rawMimeParser.js:855-862 | for text with padding at the end only, foreign characters anywhere, every cut decodes to what decoding at once gives |
| HeaderTokens.GetHeaderTokens | packages/crypto/src/jsmimeparser/headerParser.js:166-367 | the scanning loop gives the tokens of the scanner defined on the value |
| HeaderTokens.QuotedCharacter | packages/crypto/src/jsmimeparser/headerParser.js:199-235 | what a character inside a quotation or literal does |
| HeaderTokens.OrdinaryCharacter | packages/crypto/src/jsmimeparser/headerParser.js:236-345 | what a character outside does, comments nested |
| WordReading.SourceDecodes | packages/crypto/src/jsmimeparser/headerParser.js:234-265 | the regular expression, tried where a word begins, takes the longest run of words with white space between them, and a run of words as the emitter writes them decodes to their text less a byte order mark |
| AddressParser.ParseAddressingHeader | packages/crypto/src/jsmimeparser/headerParser.js:589-822 | the loop over the tokens gives the entries of the address machine |
| AddressParser.AddressReader.Take | packages/crypto/src/jsmimeparser/headerParser.js:674-809 | which branch each token takes |
| AddressParser.AddressReader.AddMailbox | packages/crypto/src/jsmimeparser/headerParser.js:643-672 | requotes the local part, tidies the name or takes the comment for one, and clears the pending state |
| AddressParser.AddressReader.TakeText | packages/crypto/src/jsmimeparser/headerParser.js:769-804 | where a text token goes, and with or without a space |
| AddressParser.AddressReader.TakeColon | packages/crypto/src/jsmimeparser/headerParser.js:681-689 | the name so far becomes the group's, and the mailboxes before it are committed |
| AddressParser.AddressReader.TakeLess | packages/crypto/src/jsmimeparser/headerParser.js:690-699 | opens an angle address, or takes the address so far for the name |
| AddressParser.AddressReader.TakeOpenComment | packages/crypto/src/jsmimeparser/headerParser.js:705-715 | begins a comment, with a space where one is due |
| AddressParser.AddressReader.TakeCloseComment | packages/crypto/src/jsmimeparser/headerParser.js:716-729 | ends it, as part of the name unless inside an angle address |
| AddressParser.AddressReader.TakeAt | packages/crypto/src/jsmimeparser/headerParser.js:730-744 | what was read as a name becomes the local part |
| AddressParser.AddressReader.TakeSemicolon | packages/crypto/src/jsmimeparser/headerParser.js:751-768 | commits the group, or the mailboxes when there is no group name |
| AddressMachine.ReadIsFed | packages/crypto/src/jsmimeparser/headerParser.js:674-821 | tokenizing a text whose only marks begin encoded-words as the emitter writes them, outside quotations, and running the tokens is one machine fed character by character and word by word |
| AddressMachine.RunAtOnce | packages/crypto/src/jsmimeparser/headerParser.js:228-265 | reading on from the first word of a run comes to one token with the decoded text of the whole run, wherever the words are parted |
| AddressMachine.ReadableParts | packages/crypto/src/jsmimeparser/headerParser.js:238-239 | an encoded-word is never cut by white space |
| AddressMachine.FeedQuoted | packages/crypto/src/jsmimeparser/headerParser.js:205-218 | what the printer quotes and escapes is read as one token with the original text |
| AddressMachine.NamePiece | packages/crypto/src/jsmimeparser/headerEmitter.js:286-313 | a name printed whole, quoted or as atoms, is read back as that name |
| AddressForms.NameKept | packages/crypto/src/jsmimeparser/headerParser.js:654-665 | tidying the white space of a display name changes no name of the class |
| AddressForms.OtherNameFacts | packages/crypto/src/jsmimeparser/headerParser.js:654-665 | a name that tidying leaves alone is printed as it is and has no byte order mark at its beginning |
| AddressForms.EmailKept | packages/crypto/src/jsmimeparser/headerParser.js:643-652 | requoting the local part gives the address as it was written |
| AddressTracking.BreakTracks | packages/crypto/src/jsmimeparser/headerEmitter.js:169-197 | a fold at a place where the reader is between tokens, or beside a space, leaves the reader in the state it was in, also inside a run of encoded-words |
| AddressTracking.ReserveTracks | packages/crypto/src/jsmimeparser/headerEmitter.js:207-244 | making room, wherever it breaks, at most ends the open token |
| AddressTracking.AppendTracks | packages/crypto/src/jsmimeparser/headerEmitter.js:257-271 | text appended moves the reader on by exactly that text |
| AddressRoundTrip.WholeNameTracks | packages/crypto/src/jsmimeparser/headerEmitter.js:342-359 | a name printed whole, or refused and to be tried again word by word, keeps the reader on track, the breakpoint at its last space included |
| AddressRoundTrip.PhraseTracks | packages/crypto/src/jsmimeparser/headerEmitter.js:329-372 | a display name, printed whole, in words or as encoded-words, is read back |
| AddressRoundTrip.EncodedTracks | packages/crypto/src/jsmimeparser/headerEmitter.js:423-497 | a name outside ASCII, printed as encoded-words and folded between them, is read back as one name |
| AddressRoundTrip.AddressTracks | packages/crypto/src/jsmimeparser/headerEmitter.js:557-590 | a mailbox printed is the next mailbox read |
| AddressRoundTrip.GroupTracks | packages/crypto/src/jsmimeparser/headerEmitter.js:618-625 | a group printed is the next entry read |
| AddressRoundTrip.EntriesTrack | packages/crypto/src/jsmimeparser/headerEmitter.js:607-628 | a list printed is the list read, over any margins |
| AddressRoundTrip.AddressesRoundTrip | packages/crypto/src/jsmimeparser/headerParser.js:589-822 | the address header emitted, folding included, starts with what was delivered before, its name and a colon, and the rest parses to exactly the list that was printed |
| Continuations.AssembleContinuations | packages/crypto/src/jsmimeparser/headerParser.js:933-982 | the loop over the segments of one parameter assembles what the model gathers |
| Continuations.JoinElements | packages/crypto/src/jsmimeparser/headerParser.js:1003-1015 | the loop up to the first missing segment, and the join |
| Continuations.GatherDescribes | packages/crypto/src/jsmimeparser/headerParser.js:951-980 | nothing has gone wrong if and only if all numbers are legal and no two are converted to the same; then the array holds each segment at its number, and nothing else |
| Continuations.LongestRun | packages/crypto/src/jsmimeparser/headerParser.js:994-1026 | for such segments the value is the segments 0 to k - 1 in numeric order, k the first number missing (or the greatest length of an array), and there is none without a segment 0 (section 3 of RFC 2231) |
| Continuations.OrderDoesNotMatter | packages/crypto/src/jsmimeparser/headerParser.js:915-1026 | any order of such segments gives the same value |
| Continuations.FirstSpoilerStops | packages/crypto/src/jsmimeparser/headerParser.js:933-977 | what comes after the first segment that is illegal or repeats a number has no effect |
| Continuations.SmallIsSound | packages/crypto/src/jsmimeparser/headerParser.js:960-976 | legal numbers below 2^53, written differently, are never converted to the same |
| Continuations.SpoiledOrder | packages/crypto/src/jsmimeparser/headerParser.js:933-980 | if some number is illegal or two are converted to the same, every run of the segments 0 to k - 1 is the result of some order, and so is none at all |
| Continuations.AllOrdersAgree | packages/crypto/src/jsmimeparser/headerParser.js:915-1026 | for segments with different numbers all orders give the same value if and only if the numbers are legal and converted to different ones, or no run gives a value |
| Continuations.RoundingMatters | packages/crypto/src/jsmimeparser/headerParser.js:970-976 | with 2^53 and 2^53 + 1 among the numbers three orders give the whole value, part of it, and none |
| Doubles.RoundsToNearest | packages/crypto/src/jsmimeparser/headerParser.js:970-970 | the conversion of parseInt gives the nearest number of 53 significant bits, the even one of two (section 6.1.6.1 of ECMA-262) |
| Doubles.SmallIsExact | packages/crypto/src/jsmimeparser/headerParser.js:970-970 | below 2^53 every integer is converted to itself, and no other is converted to it |
| MimeText.ConditionCuts | packages/crypto/src/jsmimeparser/rawMimeParser.js:559-568 | whatever follows, a buffer is never cut inside a CRLF, if and only if it is not a lone CR whose LF is next |
| MimeText.WithholdIsLastLine | packages/crypto/src/jsmimeparser/rawMimeParser.js:978-992 | what is withheld is exactly the last line, terminator included, if and only if the text does not end in CR CR or CR CR LF with more before |
| MimeText.HeaderEndStable | packages/crypto/src/jsmimeparser/rawMimeParser.js:708-716 | an end of headers, once seen, is not changed by text that comes later |
| MimeText.SplitIsNextMark | packages/crypto/src/jsmimeparser/rawMimeParser.js:955-959 | the leftmost match of the splitting expression is the first delimiter line of section 5.1.1 of RFC 2046, or neither exists |
| MimeText.NextMarkAppend | packages/crypto/src/jsmimeparser/rawMimeParser.js:559-568 | a delimiter line is never missed or invented by a cut at a line boundary |
| MimeTree.TreeNests | packages/crypto/src/jsmimeparser/rawMimeParser.js:838-866 | the events of a text, as defined, are well bracketed with child numbers that extend the parent's |
| MimeAgreement.CloseSection | packages/crypto/src/jsmimeparser/rawMimeParser.js:1067-1117 | at a delimiter line the open part has been given exactly its text less the line end before the delimiter |
| MimeAgreement.FinishSection | packages/crypto/src/jsmimeparser/rawMimeParser.js:838-866 | at the end of input an unclosed part has been given its terminated lines |
| MimeAgreement.StreamingAgrees | packages/crypto/src/jsmimeparser/rawMimeParser.js:505-771 | for every clean text and every cut that leaves no lone CR before its LF, the events are those of the definition on the whole text |
| MimeAgreement.PlainLineEnds | packages/crypto/src/jsmimeparser/rawMimeParser.js:505-522 | text with LF or CRLF line ends is clean, whatever it contains |
| MimeClean.PlainIsClean | packages/crypto/src/jsmimeparser/rawMimeParser.js:978-992 | text without two CRs in a row is clean |
| MimeClean.WithoutMultiparts | packages/crypto/src/jsmimeparser/rawMimeParser.js:978-992 | a message without multiparts is clean, CRs in a row or not |
| MimeLimits.LoneCRMatters | packages/crypto/src/jsmimeparser/rawMimeParser.js:559-568 | a lone CR cut from its LF puts a line feed into the body |
| MimeLimits.DoubleCRMatters | packages/crypto/src/jsmimeparser/rawMimeParser.js:978-992 | in an unclosed multipart with three CRs at its end, two or three of them are delivered according to the cut |
| MimeLimits.NestedLosesCR | packages/crypto/src/jsmimeparser/rawMimeParser.js:765-770 | in a multipart inside another, whatever follows, of two CRs before an x one is lost according to the cut; everything else is delivered alike |
| MimeBrackets.WellBracketed | packages/crypto/src/jsmimeparser/rawMimeParser.js:575-588 | for every text and cut: one startMessage first, one endMessage last, parts nested with numbers that extend the parent's, data for the innermost open part only |
| MimeParserObject.MimeParser.ResetParser | packages/crypto/src/jsmimeparser/rawMimeParser.js:478-498 | the parser is ready for the headers of a new part |
| MimeParserObject.MimeParser.DeliverData | packages/crypto/src/jsmimeparser/rawMimeParser.js:505-549 | holds back, announces the message once and dispatches as the stream model does |
| MimeParserObject.MimeParser.DeliverEOF | packages/crypto/src/jsmimeparser/rawMimeParser.js:575-588 | flushes what is held and ends the message |
| MimeParserObject.MimeParser.DispatchData | packages/crypto/src/jsmimeparser/rawMimeParser.js:705-726 | collects headers until they end, then dispatches the rest |
| MimeParserObject.MimeParser.DispatchText | packages/crypto/src/jsmimeparser/rawMimeParser.js:728-752 | looks for splits in the body |
| MimeParserObject.MimeParser.DispatchAround | packages/crypto/src/jsmimeparser/rawMimeParser.js:732-750 | text before, the split, and the rest, in which there may be more |
| MimeParserObject.MimeParser.RouteData | packages/crypto/src/jsmimeparser/rawMimeParser.js:754-771 | where the data goes in each state |
| MimeParserObject.MimeParser.BeginBody | packages/crypto/src/jsmimeparser/rawMimeParser.js:918-1023 | the state each kind of body starts in |
| MimeParserObject.MimeParser.ApplyDataConversion | packages/crypto/src/jsmimeparser/rawMimeParser.js:783-794 | withholds the last line of a multipart |
| MimeParserObject.MimeParser.WhenMultipart | packages/crypto/src/jsmimeparser/rawMimeParser.js:1067-1117 | closes the open part and opens the next, or ignores the epilogue |
| MimeParserObject.MimeParser.CloseOpenPart | packages/crypto/src/jsmimeparser/rawMimeParser.js:1080-1101 | strips one line end from the text withheld if the delimiter line has none before it, passes it on and ends the part |
| MimeParserObject.MimeParser.DispatchEOF | packages/crypto/src/jsmimeparser/rawMimeParser.js:838-866 | the last events of a part in each state |
| MimeParserObject.ParseMessage | packages/crypto/src/jsmimeparser/rawMimeParser.js:505-588 | the calls an emitter gets for a message, cut anyhow, are those of the stream model |
| KeyStores.KeyStore.constructor | packages/crypto/src/proxy/endpoint/api.ts:229-237 | an empty store with the counter at its random start, nothing erased |
| KeyStores.KeyStore.AddKey | packages/crypto/src/proxy/endpoint/api.ts:247-255 | stores under the given or the next index and moves the counter on, or throws and changes nothing |
| KeyStores.KeyStore.Get | packages/crypto/src/proxy/endpoint/api.ts:257-263 | the key, or none |
| KeyStores.KeyStore.ClearStore | packages/crypto/src/proxy/endpoint/api.ts:265-274 | empties the map, erases the secret part of exactly the private keys in it, and keeps the counter |
| KeyStores.KeyStore.ClearKey | packages/crypto/src/proxy/endpoint/api.ts:276-283 | removes one key and erases its secret part if it is private, or throws and changes nothing |
| KeyStores.KeyStore.ReplaceUsers | packages/crypto/src/proxy/endpoint/api.ts:1309-1328 | changes the user IDs of the target in place if both exist and are the same key, or throws and changes nothing |
| WorkerPool.StepKeeps | packages/crypto/src/proxy/endpoint/workerPool/getWorkerPool.ts:198-312 | the invariant of the pool survives every step in every order, unless a clearKeyStore overlaps an addition |
| WorkerPool.NeverInUse | packages/crypto/src/proxy/endpoint/api.ts:247-251 | no addition, at any worker, ever finds its index in use |
| WorkerPool.ReadsAsOneStore | packages/crypto/src/proxy/endpoint/workerPool/getWorkerPool.ts:78-88 | every read gets what one single store held when it was sent, so the round robin cannot be observed |
| WorkerPool.SameKeyEverywhere | packages/crypto/src/proxy/endpoint/workerPool/getWorkerPool.ts:198-219 | a reference returned and not cleared is the same key in every worker that has caught up with it |
| WorkerPool.AllStoresEqual | packages/crypto/src/proxy/endpoint/workerPool/getWorkerPool.ts:271-311 | when all messages have been dealt with every worker's store is the single store |
| WorkerPool.NoReuse | packages/crypto/src/proxy/endpoint/api.ts:231-237 | an index given out is never given out again, cleared or not |
| WorkerPool.OverlapLosesKey | packages/crypto/src/proxy/endpoint/workerPool/getWorkerPool.ts:302-306 | with two workers some run in which they overlap leaves the key in one worker and not in the other |
| TokenRefresh.KeyedSingleRunner.constructor | packages/proton-fetch/src/keyedSingleRunner.ts:2-2 | nothing is running |
| TokenRefresh.KeyedSingleRunner.Get | packages/proton-fetch/src/keyedSingleRunner.ts:4-9 | the running promise of a key, if any |
| TokenRefresh.KeyedSingleRunner.Run | packages/proton-fetch/src/keyedSingleRunner.ts:15-33 | joins the running task or starts the given one |
| TokenRefresh.KeyedSingleRunner.Finished | packages/proton-fetch/src/keyedSingleRunner.ts:27-30 | a settled task is forgotten |
| TokenRefresh.RunnerRuns | packages/proton-fetch/src/refreshManager.ts:52-58 | the runner of the transition system is that object, one per tab |
| TokenRefresh.StepKeeps | packages/proton-fetch/src/middleware/refreshMiddleware.ts:20-75 | the invariant over tabs, locks, tasks and requests survives every step |
| TokenRefresh.OneTaskPerTab | packages/proton-fetch/src/keyedSingleRunner.ts:15-33 | at most one unsettled refresh per tab and uid |
| TokenRefresh.OneLockPerUid | packages/proton-fetch/src/refreshManager.ts:9-50 | at most one refresh per uid is past the lock |
| TokenRefresh.OneCallPerUid | packages/proton-fetch/src/refreshManager.ts:9-50 | at most one refresh call is out per uid across all tabs |
| TokenRefresh.RefreshCallPasses | packages/proton-fetch/src/middleware/refreshMiddleware.ts:23-27 | the refresh call goes through the same middleware, is sent at once and once, waits for no refresh, and its answer, 401 or not, is returned without starting or joining one |
| TokenRefresh.OwnRefreshRuns | packages/proton-fetch/src/middleware/refreshMiddleware.ts:23-33 | when the refresh call enters, its own refresh is the one running for the uid: without the guard it would wait for itself |
| TokenRefresh.BoundedWork | packages/proton-fetch/src/middleware/refreshMiddleware.ts:25-72 | a refresh makes at most one call; a request waits once, joins one refresh after its own 401 and is sent at most twice |
| TokenRefresh.ForgottenBeforeSeen | packages/proton-fetch/src/keyedSingleRunner.ts:26-32 | a settled refresh has left the map before any request sees its result |
| TokenRefresh.NeverStuck | packages/proton-fetch/src/middleware/refreshMiddleware.ts:23-33 | as long as a request is unfinished some step other than a new request can happen |
| TokenRefresh.WorkShrinks | packages/proton-fetch/src/middleware/refreshMiddleware.ts:20-75 | every step other than a new request lowers the work left |
| TokenRefresh.RunsEnd | packages/proton-fetch/src/middleware/refreshMiddleware.ts:20-75 | a run without new requests has at most as many steps as there was work |
| TokenRefresh.AllAnswered | packages/proton-fetch/src/middleware/refreshMiddleware.ts:20-75 | when nothing but a new request can happen every request has been answered, so that every maximal run answers all |
| TokenRefresh.Completes | packages/proton-fetch/src/middleware/refreshMiddleware.ts:20-75 | from any state of the invariant some run without new requests answers every request |
| StreamPort.StepKeeps | packages/crypto/src/proxy/endpoint/workerPool/transferHandlers/streamHandler.ts:19-129 | the invariant of both ends and both channels survives every step |
| StreamPort.NothingLost | packages/crypto/src/proxy/endpoint/workerPool/transferHandlers/streamHandler.ts:29-43 | in every reachable state enqueued, under way and left over make up the original stream, with at most one READ outstanding |
| StreamPort.EndsAsTheSource | packages/crypto/src/proxy/endpoint/workerPool/transferHandlers/streamHandler.ts:102-118 | the rebuilt stream closes only with all chunks of a stream that closed, and errors only with its error |
| StreamPort.SilentAfterCancel | packages/crypto/src/proxy/endpoint/workerPool/transferHandlers/streamHandler.ts:119-122 | nothing is enqueued after a cancel |
| StreamPort.CancelReachesSource | packages/crypto/src/proxy/endpoint/workerPool/transferHandlers/streamHandler.ts:45-52 | a cancel that has been dealt with has cancelled the source, read before or not |
| StreamPort.WorkShrinks | packages/crypto/src/proxy/endpoint/workerPool/transferHandlers/streamHandler.ts:62-129 | every step reduces the work left |
| StreamPort.KeepsGoing | packages/crypto/src/proxy/endpoint/workerPool/transferHandlers/streamHandler.ts:64-99 | a readable stream can always go on without a cancel |
| StreamPort.ComesToAnEnd | packages/crypto/src/proxy/endpoint/workerPool/transferHandlers/streamHandler.ts:101-118 | reading on delivers the whole stream and ends as the source does |
| Connectivity.HandleAgrees | packages/react-utils/src/connectivity/OnlineObserver.ts:135-236 | every event keeps timers, fields and snapshot in agreement |
| Connectivity.AlwaysAgrees | packages/react-utils/src/connectivity/OnlineObserver.ts:78-236 | after any events: each timer is armed exactly in its states, none without subscribers, the snapshot is the fields, at most one ping is out |
| Connectivity.OfflineNeedsDelay | packages/react-utils/src/connectivity/OnlineObserver.ts:135-149 | offline is reported only after an unbroken offlineDelay of unsafe connection |
| Connectivity.NeverBoth | packages/react-utils/src/connectivity/OnlineObserver.ts:152-177 | if offlineDelay is at least backOnlineDuration no snapshot is both back online and offline |
| Connectivity.BothOtherwise | packages/react-utils/src/connectivity/OnlineObserver.ts:152-177 | if it is shorter, some run reports both |
| Connectivity.OnlineObserver.constructor | packages/react-utils/src/connectivity/OnlineObserver.ts:46-74 | the fields a new observer starts with |
| Connectivity.OnlineObserver.Subscribed | packages/react-utils/src/connectivity/OnlineObserver.ts:78-82 | the first listener starts the observer |
| Connectivity.OnlineObserver.Unsubscribed | packages/react-utils/src/connectivity/OnlineObserver.ts:83-88 | the last one to leave stops it; calling it again, or for a listener that has left, does no more |
| Connectivity.OnlineObserver.Start | packages/react-utils/src/connectivity/OnlineObserver.ts:101-116 | resynchronises every field from the browser and starts retrying if offline |
| Connectivity.OnlineObserver.HandleBrowserEvent | packages/react-utils/src/connectivity/OnlineObserver.ts:126-129 | takes over the browser's status |
| Connectivity.OnlineObserver.ApplySafe | packages/react-utils/src/connectivity/OnlineObserver.ts:135-149 | online at once, offline through the debounce timer, nothing without a change |
| Connectivity.OnlineObserver.ChangeOnline | packages/react-utils/src/connectivity/OnlineObserver.ts:152-177 | fields and timers after a change of the debounced status |
| Connectivity.OnlineObserver.OnDebounce | packages/react-utils/src/connectivity/OnlineObserver.ts:146-148 | the debounce timer fires |
| Connectivity.OnlineObserver.OnRetry | packages/react-utils/src/connectivity/OnlineObserver.ts:160-163 | the retry timer fires |
| Connectivity.OnlineObserver.OnBackOnline | packages/react-utils/src/connectivity/OnlineObserver.ts:171-175 | the back-online timer fires |
| Connectivity.OnlineObserver.Ping | packages/react-utils/src/connectivity/OnlineObserver.ts:179-190 | a ping is sent unless one is out |
| Connectivity.OnlineObserver.OnPingAnswer | packages/react-utils/src/connectivity/OnlineObserver.ts:192-203 | what an answer or a failure does |
| Connectivity.OnlineObserver.ChangePingOffline | packages/react-utils/src/connectivity/OnlineObserver.ts:206-214 | the verdict of a ping, ignored without subscribers |
| Connectivity.OnlineObserver.PublishSnapshot | packages/react-utils/src/connectivity/OnlineObserver.ts:222-236 | the snapshot is replaced only when it changes |
| Connectivity.OnlineObserver.OnEvent | packages/react-utils/src/connectivity/OnlineObserver.ts:78-236 | each event, handled by the method for it, leaves the object in the state of the model and its timers in agreement |
| Connectivity.Observe | packages/react-utils/src/connectivity/OnlineObserver.ts:46-236 | the object, taken through any run of events, ends in the state of that run, with its timers in agreement |
| ZonedTime.OffsetIsExact | packages/date-utils/src/timezone.ts:303-318 | rounding makes up for the milliseconds the formatter drops, at every instant |
| ZonedTime.OnlyCandidates | packages/date-utils/src/timezone.ts:325-339 | an instant that reads the clock asked for is one of two candidates |
| ZonedTime.ExactUnlessSkipped | packages/date-utils/src/timezone.ts:325-339 | the result reads the clock asked for if and only if some instant does; in a gap it is off by exactly the gap, ahead if the naive instant is at or after the transition, behind if before |
| ZonedTime.RepeatedHour | packages/date-utils/src/timezone.ts:325-339 | which of two instants is taken when the clock reads twice |
| LogStore.PaddedOrder | packages/logger/src/logger.ts:266-269 | zero-padded numbers compare as strings as they do as numbers |
| LogStore.LaterInIndex | packages/logger/src/logger.ts:271-276 | a later line of a session comes later in the index |
| LogStore.LogStorage.Store | packages/logger/src/storage.ts:56-76 | an entry goes where the index has it |
| LogStore.LogStorage.RemoveOldest | packages/logger/src/storage.ts:89-107 | the cursor loop removes exactly the first entries of the index |
| LogStore.LogStorage.RemoveOlderThan | packages/logger/src/storage.ts:110-124 | the cursor loop removes exactly the entries up to the time, and counts them |
| LogOrder.PersistKeeps | packages/logger/src/logger.ts:239-277 | writing the next line keeps the store in order of emission |
| LogOrder.ReadBackInOrder | packages/logger/src/storage.ts:67-76 | after any events the store holds a stretch of the lines to be kept (the last 1000 before initialization, then all) in order of emission, from the first not removed to the last written |
| LogOrder.CleanupKeepsNewest | packages/logger/src/logger.ts:367-385 | a cleanup keeps exactly the newest maxEntries of the entries newer than the cutoff |
| LogOrder.PersistentLogger.EmitLine | packages/logger/src/logger.ts:196-220 | queues a line, or keeps it among the last 1000 before initialization |
| LogOrder.PersistentLogger.InitializeLogger | packages/logger/src/logger.ts:148-170 | queues the pending lines in order, then a cleanup; a second call changes nothing |
| LogOrder.PersistentLogger.RunNextWrite | packages/logger/src/logger.ts:226-237 | the chain runs its tasks first in, first out |
| LogOrder.PersistentLogger.TrimStorage | packages/logger/src/logger.ts:367-385 | trims by age, then by count |

## Left out

Numbers and SRP
- Srp.GenerateProofs: hashing and the random octets are parameters; getSrp, the modulus signature and the password hashes are not modelled.
- bitLength, which is byteLength with another shift.

Headers
- AddressRoundTrip.AddressesRoundTrip: is stated for printable ASCII names, trimmed and single-spaced, without quote, backslash or "=?" and with no word that begins with a full stop; for names outside ASCII that are printed as encoded-words, that cleaning and tidying leave alone, and that do not begin with a full stop; for addresses without "=?" that have an atom domain and a canonically quoted, not blank local part (the reader decodes an encoded-word wherever it stands, in an address too; an address in which "=?" begins no such word would survive), for groups with a name, and for headers that were printed without a throw; other text does not survive (quotes are dropped, full stops lose the space before them, encoded-words are decoded).
- HeaderPhrases.DeliveredIsWritten: is stated for names, texts and ends of header; quoting and encoding add characters of their own, and their text is the subject of the round trips.
- WordSplitting.WordsReadBack: is about the words one by one, and about UTF-8; the joining inside a header is in WordRoundTrip.EncodedRoundTrip.
- WordRoundTrip.EncodedRoundTrip: is about a header that holds encoded-words only; those among the addresses of a list are in AddressRoundTrip.EncodedTracks.
- WordDecoding.DecodeRFC2047Words: the decoders of charsets other than UTF-8 are a parameter.
- AddressParser.ParseAddressingHeader: cleanToken and decodeRFC2047Words are parameters. The round trip asks of the first that it leaves the names alone, and of the second, for names outside ASCII, what WordReading.SourceDecodes shows of the source; a word that makes the source throw is not told apart from one without text.
- Continuations.AssembleContinuations: takes the segments of one parameter; splitting the header into name=value pairs and undoing %-encoding come before, and the charset decoding is a parameter. ECMA-262 lets parseInt take digits after the twentieth for zeros; the model converts all of them.
- Continuations.AllOrdersAgree: asks that no number is written twice; a segment that is repeated may give its own value or the other one, according to the order.
- Groups inside groups, addDate, structured encoders other than addresses, and the date and content-type parsers.
- Strings are sequences of Unicode characters: unpaired surrogates are not modelled, and a character outside the Basic Multilingual Plane counts once towards a line's length where JavaScript counts it twice.

MIME
- MimeAgreement.StreamingAgrees: asks for a clean text and that no buffer leaves a lone CR before its LF. The steps on which the conditions rest fail exactly where MimeText.ConditionCuts and MimeText.WithholdIsLastLine say; of the texts that are not clean some come out the same for every cut, and which do is not stated.
- MimeParserObject.MimeParser.BeginBody: the content type read from the headers is a parameter, as is the boundary, which a parsed header cannot give a line end; the transfer decoding of message parts and bodies (base64 over chunks is in ContentDecoders), charset conversion, and the options bodyformat, strformat, pruneat and onerror are not modelled.
- MimeParserObject.MimeParser.ApplyDataConversion: models the conversion of multiparts only, not the transfer decoders or the charset coercion.
- ContentDecoders.ChunkedBase64IsWhole: asks that padding occurs at the end only; elsewhere atob may throw or the chunks decide what is dropped.

Workers and ports
- WorkerPool.StepKeeps: has the hypothesis that a clearKeyStore is sent only when no addition is in flight, and an addition started only when no worker has one to deal with (OverlapLosesKey shows why); a key that the first worker accepts is accepted by all, and the application uses only references that it has been given. Starting and stopping the pool is not modelled.
- StreamPort.StepKeeps: onmessageerror and the structured clone of chunks and errors are not modelled.

Protocols
- TokenRefresh.StepKeeps: the response bodies, the copy of the request kept for the retry and onUnauthorized are not modelled; a promise's callbacks run in the order in which they were registered, without counting the extra turns of nested async functions; every request sent is answered or fails in the end.
- Connectivity.HandleAgrees: listeners do not throw and do not call back into the observer; the browser's timers fire no earlier than due and, when due at the same time, in the order in which they were set.
- ZonedTime.ExactUnlessSkipped: the formatter is an offset function in whole minutes, and the zone has at most one transition between the instants that the two passes look at.

Logs and counters
- Counters (key identifiers, part numbers, log lines, timers) are unbounded integers; those of the source are doubles, exact below 2^53.
- LogOrder.PersistentLogger.EmitLine: does not model the copy that goes to the console, nor which levels do.
- LogOrder.ReadBackInOrder: asks for a clock that does not go back, fewer than 10^12 lines, an empty store at first and no failure; encryption, the console, flush, clearLogs, destroy and reading in the worker are not modelled.

# neujson in Dafny

neujson is a small C++17 JSON library. Its parts:

- **Reader.** A recursive-descent reader (`Reader::Parse`) pulls characters from a read stream. For each value it finds it calls a handler: `Null`, `Bool`, `Int32`, `Int64`, `Double`, `String`, `Key`, `StartObject`/`EndObject` and `StartArray`/`EndArray`. When it fails it returns one of fifteen `ParseError` codes.
- **Value and Document.** A `Value` is a type tag next to a variant payload. A `Document` is itself a handler: it builds a `Value` tree from the calls it receives. `Value::writeTo` replays a tree as handler calls.
- **Writers.** The `Writer` and the `PrettyWriter` are handlers that print compact or indented JSON text into a write stream.
- **Support code.** Integer-to-text conversion (`u32toa` … `i64toa`) and digit counting serve the writers. `clzll`, `DiyFp` and `BigInteger` are the arithmetic under the floating-point code.

The project models this core, one Dafny module per source file:

| file | module | what it holds |
|---|---|---|
| `arith.dfy` | `Arith` | powers of 2, 5, 10 and the fixed-width integer types |
| `handler.dfy` | `Handler` | the handler calls (`Event`), a double as its bit pattern, and `Sink`, a handler that records its calls and answers by a fixed function of them |
| `exception.dfy` | `Errors` | `ParseError`, the message table, `Exception` |
| `string_read_stream.dfy`, `string_write_stream.dfy` | `ReadStream`, `WriteStream` | the in-memory streams, as classes |
| `value.dfy` | `Values` | `Value` as a datatype: constructors, getters, lookups, additions, `writeTo` |
| `reader_spec.dfy` | `ReaderSpec` | the grammar the reader accepts, as recursive functions over the input text: the error, the position reached, the calls made and the value read |
| `reader.dfy` | `Reader` | the reader as imperative methods over a `StringReadStream` and a `Sink`, each proved to agree with `ReaderSpec` |
| `reader_props.dfy` | `ReaderProps` | what a parse tells its handler, and the value it reads |
| `reader_examples.dfy` | `ReaderExamples` | the error cases of the parser test suite, proved on the specification |
| `document.dfy`, `document_parse.dfy` | `Documents`, `DocumentParse` | the `Document` state machine, its invariant, its class, and parse-then-build |
| `writer.dfy`, `writer_props.dfy` | `Writer`, `WriterProps` | the compact writer and what its text is |
| `pretty_writer.dfy`, `pretty_props.dfy` | `Pretty`, `PrettyProps` | the pretty writer, and how it relates to the compact one |
| `itoa.dfy`, `count_decimal_digit.dfy` | `Itoa`, `DigitCount` | the table-driven conversions into an `array<char>`, and the digit counters |
| `clzll.dfy`, `diy_fp.dfy` | `Clz`, `Fp` | leading zeros; the do-it-yourself floating-point value |
| `decimal_value.dfy`, `big_integer.dfy`, `big_integer_as_written.dfy` | `Decimals`, `BigInts`, `BigIntsAsWritten` | the value of a digit string; the fixed-capacity big integer over an array of 64-bit limbs |
| `round_trip.dfy`, `round_trip_tests.dfy` | `RoundTrips`, `RoundTripTests` | the reader reading a compact text back into the value that was written; the round-trip test cases |

Modelling choices:

- **Handlers.** A handler is a `Sink`. It appends each call to `trace` and answers `accept(trace)`. So any deterministic handler can be stood in for, one that says stop included.
- **Readers.** Each reader method has an `Agrees` postcondition. Its error and the trace it leaves equal those of the specification function. When the error is OK, so does the stream position it reaches. After a throw the position is not compared: the exception unwinds to `parse`, which reads the stream no further.
- **std::stod.** It is the parameter `stod`; `None` stands for out_of_range. `std::stoll` is modelled exactly: `Stoll` with the int64 range check.
- **printf("%.17g").** The writers take it as the parameter `fmt`.
- **Doubles.** A double is carried as its 64-bit pattern. `QUIET_NAN` and `INFINITY` are the patterns the parser hands out.
- **Characters.** A `char` stands for one byte of the C++ `std::string`.
- **bad_variant_access.** A getter returns an `Access`: `Got(x)`, or `BadVariantAccess` where std::get throws. The walk of writeTo records a `threw` flag; a throw ends the walk at every level.
- **Writers and Document.** Each is modelled as a step function on its state, with a class whose methods are proved to take exactly that step. `NEUJSON_ASSERT` conditions become `requires` on those methods and a `None` result of the step.

## Model

| member | source | states |
|---|---|---|
| `Errors.ParseErrorStr` | include/neujson/exception.h:40-49 | the lookup asserts an index inside the table and returns one of its non-empty messages |
| `Errors.Code` | include/neujson/exception.h:14-37 | a code's enum value is its position in the ERR_TABLE listing |
| `Errors.CodesDistinct` | include/neujson/exception.h:33-37 | the fifteen enum values are in the table's range and pairwise distinct |
| `Errors.EveryIndexIsACode` | include/neujson/exception.h:33-37 | every table index is the enum value of the code listed there |
| `Errors.MessageOfCode` | include/neujson/exception.h:14-49 | looking up a code's enum value yields that code's own message ("ok" … "user stopped parse") |
| `Errors.Exception.Err` | include/neujson/exception.h:57-61 | `err()` returns the code the exception was built with |
| `Errors.Exception.What` | include/neujson/exception.h:60 | `what()` is the message of the stored code |
| `Handler.SpecialValues` | include/neujson/writer.h:145-151 | the quiet NaN is a NaN and no infinity; +inf and -inf are infinities and no NaN |
| `Handler.Sink.Handle` | include/neujson/reader.h:286 | a handler call is recorded after the earlier ones and its answer is the handler's verdict on the calls so far |
| `ReadStream.At` | include/neujson/string_read_stream.h:29 | the character at a position, '\0' once the end has been reached |
| `ReadStream.Advance` | include/neujson/string_read_stream.h:40-46 | skipping n characters stops at the end: the position moves by min(n, what is left) |
| `ReadStream.StringReadStream.constructor` | include/neujson/string_read_stream.h:25 | the stream starts at the first character of the text |
| `ReadStream.StringReadStream.HasNext` | include/neujson/string_read_stream.h:27 | true exactly while characters remain |
| `ReadStream.StringReadStream.Peek` | include/neujson/string_read_stream.h:29 | the current character, or '\0' at the end, with nothing moved |
| `ReadStream.StringReadStream.Next` | include/neujson/string_read_stream.h:31-38 | returns the current character and moves one on; at the end returns '\0' and stays |
| `ReadStream.StringReadStream.Skip` | include/neujson/string_read_stream.h:40-46 | next(n) moves to `Advance(json, pos, n)` |
| `ReadStream.StringReadStream.AssertNext` | include/neujson/string_read_stream.h:48-52 | given that the current character is the expected one, it is consumed |
| `WriteStream.StringWriteStream.constructor` | include/neujson/string_write_stream.h:14-17 | a new stream holds no text |
| `WriteStream.StringWriteStream.Put` | include/neujson/string_write_stream.h:20-22 | appends exactly the one character |
| `WriteStream.StringWriteStream.Puts` | include/neujson/string_write_stream.h:24-26 | appends the first n characters of the argument |
| `WriteStream.StringWriteStream.PutSv` | include/neujson/string_write_stream.h:28-30 | appends the whole view, in order |
| `WriteStream.StringWriteStream.Get` | include/neujson/string_write_stream.h:32-34 | returns everything appended so far, character for character |
| `WriteStream.StringWriteStream.Flush` | include/neujson/string_write_stream.h:36 | flushing leaves the text as it was |
| `Values.OfType` | include/neujson/value.cc:9-24 | Value(Type) has that tag; the scalars get an empty payload, a string, array or object an empty one of its kind |
| `Values.OfCString` | include/neujson/value.h:82 | Value(const char *) holds the characters before the first NUL, and no NUL |
| `Values.UpToNul` | include/neujson/value.h:82 | strlen: the prefix before the first NUL, which is followed by that NUL |
| `Values.OfChars` | include/neujson/value.h:83-84 | Value(s, len) holds exactly the first len characters, NULs included |
| `Values.ConstructorsWf` | include/neujson/value.h:77-84 | the typed constructors agree with their tag; Value(Type) does so exactly for NULL, STRING, ARRAY and OBJECT, not for BOOL, INT32, INT64 or DOUBLE |
| `Values.PlainIsWf` | include/neujson/value.h:77-84 | a value whose payload is the one its tag names, all the way down, can be read by the getters |
| `Values.GetBool` | include/neujson/value.h:103 | given the asserted BOOL tag: the stored bool when the payload holds one, which inverts `OfBool`; bad_variant_access exactly when the value is not well formed |
| `Values.GetInt32` | include/neujson/value.h:104 | the same for INT32 |
| `Values.GetInt64` | include/neujson/value.h:106-109 | given an INT64 or INT32 tag: the stored integer, an int32 widened; bad_variant_access exactly when the value is not well formed |
| `Values.GetDouble` | include/neujson/value.h:111 | the same for DOUBLE |
| `Values.GetString` | include/neujson/value.h:113-118 | the same for STRING: the characters, which `OfString` stored |
| `Values.GetArray` | include/neujson/value.h:120 | given the ARRAY tag: the elements when the payload is an array, else bad_variant_access |
| `Values.GetObject` | include/neujson/value.h:121 | given the OBJECT tag: the members when the payload is an object, else bad_variant_access |
| `Values.GettersOfEmptyScalarsThrow` | include/neujson/value.cc:9-15 | Value(NEU_BOOL), Value(NEU_INT32), Value(NEU_INT64) and Value(NEU_DOUBLE) hold no payload, so their getters throw |
| `Values.GettersInvertConstructors` | include/neujson/value.h:78-121 | each getter returns, without throwing, what the matching constructor stored; isInt64 also holds of INT32 values; isArray and isObject tell the empty containers apart, and these read back empty |
| `Values.GetSizeAsWritten` | include/neujson/value.cc:26-32 | as written: the size of an array throws bad_variant_access, an object gives its member count, anything else 1 |
| `Values.GetSize` | include/neujson/value.cc:26-32 | as intended: an array's element count, an object's member count, 1 otherwise |
| `Values.GetSizeOfArrayThrows` | include/neujson/value.cc:28 | every well-formed array, the empty one included, throws under getSize as written |
| `Values.Index` | include/neujson/value.h:188-196 | operator[](index) gives the element at that index, and fails (out_of_range) exactly past the last one |
| `Values.FindMember` | include/neujson/value.cc:34-41 | the first member with the key, or the end position when no member has it |
| `Values.FindIn` | include/neujson/value.cc:36-40 | find_if: the first position whose key matches, every earlier key differing |
| `Values.FindMemberEnd` | include/neujson/value.cc:34-41 | findMember returns end exactly when no member has the key |
| `Values.Lookup` | include/neujson/value.h:198-213 | operator[](key), for a key that is present: the value of the first member with that key |
| `Values.AddValue` | include/neujson/value.h:215-221 | the array gains the value as its new last element; the earlier elements are unchanged |
| `Values.AddMember` | include/neujson/value.h:253-260 | the object gains the member last; the earlier members are kept; the key is then found, and looks up that value |
| `Values.AddValueGrows` | include/neujson/value.h:215-221 | addValue keeps the array well-formed and its size grows by one |
| `Values.AddMemberGrows` | include/neujson/value.h:253-260 | addMember of a new key keeps the object well-formed, its keys distinct, and its size grows by one |
| `Values.MoveAssign` | include/neujson/value.h:180-186 | the target becomes the source; the moved-from value has the NULL tag |
| `Values.Events` | include/neujson/value.h:264-295 | writeTo makes at least one call for every value |
| `Values.Send` | include/neujson/value.h:262 | one checked handler call: recorded, with the handler's answer |
| `Values.KeysTagged` | include/neujson/value.h:113-114 | the key assertion of getStringView that writeTo's Key calls need; every well-formed value meets it |
| `Values.WriteTo` | include/neujson/value.h:264-295 | for any value whose keys are tagged STRING: the walk makes the calls `WriteSpec` makes and returns its verdict, or throws bad_variant_access where `WriteSpec` does |
| `Values.WriteArray` | include/neujson/value.h:279-283 | the ARRAY case: StartArray, then bad_variant_access if the payload is no array, else the elements' walks and EndArray, as `WriteSpec` says |
| `Values.WriteObject` | include/neujson/value.h:285-290 | the OBJECT case likewise; a key whose payload is no string throws before its Key call |
| `Values.WriteSpecMeaning` | include/neujson/value.h:262-295 | for a well-formed value nothing throws; the calls writeTo makes form a prefix of `Events(v)`; true means all were made; false means the handler refused the last one; every earlier call other than a Key was accepted |
| `Values.WriteThrowsIff` | include/neujson/value.h:264-295 | against a handler that always goes on, writeTo throws exactly when the value is not well formed, and returns true otherwise |
| `Values.WriteEmptyPayloadsThrow` | include/neujson/value.h:269-283 | Value(NEU_BOOL) throws before any call; an array holding Value(NEU_INT32) throws right after StartArray |
| `Values.WriteReports` | include/neujson/value.h:264-295 | writeTo reports: at least one call and nothing thrown; the calls are a prefix of the value's events, all of them when it returns true; otherwise the last call was refused and every call before it other than a Key was accepted |
| `Values.ElemsSpecMeaning` | include/neujson/value.h:280-282 | the element loop makes a prefix of the elements' events; it stops at the first refusal, so every call before the last, Keys excepted, was accepted, and the last too when it returns true |
| `Values.MembersSpecMeaning` | include/neujson/value.h:286-289 | the member loop likewise; the answer to Key is ignored |
| `Values.ElemsThrowIff` | include/neujson/value.h:280-282 | against a handler that always goes on, the element loop throws exactly when some element is not well formed |
| `Values.MembersThrowIff` | include/neujson/value.h:286-289 | the member loop likewise, a key whose payload is no string included |
| `Values.ElemsSticky` | include/neujson/value.h:280-282 | once an element has been refused, the later elements add no calls |
| `Values.MembersSticky` | include/neujson/value.h:286-289 | once a member has been refused, the later members add no calls |
| `Values.KeyReports` | include/neujson/value.h:287-288 | a member is its Key call followed by the walk of its value, whatever the Key call answered |
| `Values.WriteToAcceptingHandler` | include/neujson/value.h:264-295 | for a well-formed value, a handler that always goes on receives exactly `Events(v)`, nothing throws, and writeTo returns true |
| `ReaderSpec.Emit` | include/neujson/reader.h:286 | CALL: the call is recorded; the result is OK exactly when the handler accepted it |
| `ReaderSpec.Hex4` | include/neujson/reader.h:102-114 | defined exactly when four hexadecimal digits follow; their value, most significant first, below 0x10000 |
| `ReaderSpec.Combine` | include/neujson/reader.h:421-422 | a surrogate pair stands for a code point from 0x10000 to 0x10FFFF |
| `ReaderSpec.UnicodeEscape` | include/neujson/reader.h:414-429 | a \u escape decodes to a code point up to 0x10FFFF, or fails with BAD_UNICODE_HEX or BAD_UNICODE_SURROGATE |
| `ReaderSpec.Utf8` | include/neujson/reader.h:520-537 | one to four bytes, by the code point's range, none above 0x10FFFF; for every code point up to 0x10FFFF the bytes decode as UTF-8 (RFC 3629 section 3), read back by `DecodeUtf8`, to that code point |
| `ReaderSpec.Utf8Iff` | include/neujson/reader.h:520-537 | a byte string decodes to u exactly when u is at most 0x10FFFF and the string is `Utf8(u)`; the decoder takes shortest forms only, so the encoding is its inverse |
| `ReaderSpec.SimpleEscape` | include/neujson/reader.h:397-413 | defined exactly for the eight escape letters " \ / b f n r t |
| `ReaderSpec.LiteralValue` | include/neujson/reader.h:297-305 | the value a literal stands for is well-formed and makes exactly the literal's one call |
| `ReaderSpec.LiteralSpec` | include/neujson/reader.h:288-308 | a literal not spelled out in full is BAD_VALUE with no call; a complete one is the one call it stands for |
| `ReaderSpec.ScanInt` | include/neujson/reader.h:324-328 | the integer part: a lone 0, or a digit 1-9 and every digit after it |
| `ReaderSpec.ScanFrac` | include/neujson/reader.h:332-337 | the fraction: empty, or a '.' and at least one digit, all digits taken |
| `ReaderSpec.ScanExp` | include/neujson/reader.h:339-345 | the exponent: empty, or e/E, an optional sign and at least one digit, all digits taken |
| `ReaderSpec.ScanNumberGrammar` | include/neujson/reader.h:320-347 | a scanned number is '-'?, an integer part, a fraction and an exponent, as RFC 8259 section 6 writes them |
| `ReaderSpec.IntegerTextDigits` | include/neujson/reader.h:349-376 | the text of a number with no fraction and no exponent, which goes to stoll, is a sign or digit followed by digits only |
| `ReaderSpec.AfterElementComma` | include/neujson/reader.h:458-460 | after an element, ',' continues the loop with that element kept |
| `ReaderSpec.AfterElementStop` | include/neujson/reader.h:458-464 | after an element, ']' closes the array; any other character is MISS_COMMA_OR_SQUARE_BRACKET |
| `ReaderSpec.AfterMemberComma` | include/neujson/reader.h:493-495 | after a member, ',' continues the loop with that member kept |
| `ReaderSpec.AfterMemberStop` | include/neujson/reader.h:493-499 | after a member, '}' closes the object; any other character is MISS_COMMA_OR_CURLY_BRACKET |
| `Reader.ParseWhitespace` | include/neujson/reader.h:263-270 | skips exactly the run of ' ', '\t', '\r', '\n' at the cursor |
| `ReaderSpec.SkipWsRun` | include/neujson/reader.h:264-270 | every character the skip passes over is whitespace |
| `Reader.ParseHex4` | include/neujson/reader.h:102-114 | OK exactly when four hex digits follow, and then returns their value |
| `Reader.Hex4Bad` | include/neujson/reader.h:111 | any non-hex character among the four is BAD_UNICODE_HEX |
| `Reader.ParseUnicode` | include/neujson/reader.h:414-429 | the \u branch agrees with `UnicodeEscape`: its error, the code point and where it stops |
| `Reader.EncodeUtf8` | include/neujson/reader.h:520-537 | appends `Utf8(u)` to the buffer; the appended bytes decode back to u when u is at most 0x10FFFF, and nothing is appended above it |
| `Reader.ParseEscape` | include/neujson/reader.h:396-430 | one escape letter: its character or BAD_STRING_ESCAPE |
| `Reader.ParseString` | include/neujson/reader.h:383-441 | agrees with `StringSpec`: decoded text to Key or String, or the string error |
| `Reader.ParseLiteral` | include/neujson/reader.h:288-308 | agrees with `LiteralSpec` |
| `Reader.PushDigits` | include/neujson/reader.h:327 | pushes the current character and every digit after it onto the buffer |
| `Reader.ReadInt` | include/neujson/reader.h:324-328 | succeeds exactly when `ScanInt` does, reaching where it ends |
| `Reader.ReadFrac` | include/neujson/reader.h:332-337 | succeeds exactly when `ScanFrac` does, reaching where it ends |
| `Reader.ReadExp` | include/neujson/reader.h:339-345 | succeeds exactly when `ScanExp` does, reaching where it ends |
| `Reader.ScanNumberText` | include/neujson/reader.h:321-347 | succeeds exactly when `ScanNumber` does, with the scanned text in the buffer |
| `Reader.Report` | include/neujson/reader.h:349-379 | the conversion and call agree with `ConvertSpec` |
| `Reader.ParseNumeric` | include/neujson/reader.h:321-381 | scan, then convert, agreeing with `ConvertSpec` |
| `Reader.ParseNumber` | include/neujson/reader.h:310-381 | agrees with `NumberSpec`: NaN and Infinity as literals, else the numeric text |
| `Reader.ParseArray` | include/neujson/reader.h:443-466 | agrees with `ArraySpec` |
| `Reader.ParseElement` | include/neujson/reader.h:455-464 | one loop round agrees with `Elements`, or continues at the next element |
| `Reader.ElementSeparator` | include/neujson/reader.h:457-464 | the separator after an element agrees with `AfterElement` |
| `Reader.ParseObject` | include/neujson/reader.h:468-501 | agrees with `ObjectSpec` |
| `Reader.ParseMemberRound` | include/neujson/reader.h:480-499 | one loop round agrees with `Members`, or continues at the next key |
| `Reader.MemberSeparator` | include/neujson/reader.h:492-499 | the separator after a member agrees with `AfterMember` |
| `Reader.ParseMember` | include/neujson/reader.h:481-491 | the key, ':', the value agree with `Pair` |
| `Reader.ParseValue` | include/neujson/reader.h:505-518 | agrees with `ValueSpec`: EXPECT_VALUE at the end, else dispatch on the current character |
| `Reader.Parse` | include/neujson/reader.h:89-100 | its error and the handler's calls are those of `ParseSpec`: whitespace, a value, whitespace, then ROOT_NOT_SINGULAR if anything is left |
| `ReaderProps.HonestEmit` | include/neujson/reader.h:286 | one CALL is honest: USER_STOPPED exactly when the handler refused it |
| `ReaderProps.LiteralHonest` | include/neujson/reader.h:288-308 | a literal reports USER_STOPPED only when the handler refused, and no call follows a refusal |
| `ReaderProps.StringHonest` | include/neujson/reader.h:383-441 | the same for strings |
| `ReaderProps.NumberHonest` | include/neujson/reader.h:310-381 | the same for numbers, with the handler call outside the catch |
| `ReaderProps.ValueHonest` | include/neujson/reader.h:505-518 | the same for any value |
| `ReaderProps.ArrayHonest` | include/neujson/reader.h:443-466 | the same for arrays |
| `ReaderProps.ObjectHonest` | include/neujson/reader.h:468-501 | the same for objects |
| `ReaderProps.ParseHonest` | include/neujson/reader.h:89-100 | Parse is USER_STOPPED exactly when the handler's last answer was no, and no call follows a refused one |
| `ReaderProps.StringReports` | include/neujson/reader.h:383-441 | a string read reports exactly the one call of its value |
| `ReaderProps.NumberReports` | include/neujson/reader.h:310-381 | a number read reports exactly the one call of its value |
| `ReaderProps.ValueReports` | include/neujson/reader.h:505-518 | a value read successfully is well-formed, and the calls it made are exactly its `Events` |
| `ReaderProps.ArrayReports` | include/neujson/reader.h:443-466 | an array read reports StartArray, its elements' calls, EndArray |
| `ReaderProps.ObjectReports` | include/neujson/reader.h:468-501 | an object read reports StartObject, Key and the value's calls for each member, EndObject |
| `ReaderProps.ParseReports` | include/neujson/reader.h:89-100 | a successful parse reports exactly the calls `writeTo` makes for the value read |
| `ReaderProps.ConvertAsWritten` | include/neujson/reader.h:349-379 | as written, a refused number call is rethrown as NUMBER_TOO_BIG and never reported as USER_STOPPED |
| `ReaderProps.ConvertAsWrittenMisreports` | include/neujson/reader.h:371-379 | "1" to a handler that refuses everything is reported as NUMBER_TOO_BIG |
| `ReaderProps.ConvertStopsHonestly` | include/neujson/reader.h:349-379 | with the call outside the catch, a refused number is USER_STOPPED |
| `ReaderExamples.BlankExpectsValue` | test/parse_test.cc:375-378 | empty or all-whitespace input is EXPECT_VALUE, consumed to the end, with no call |
| `ReaderExamples.TruncatedLiteral` | test/parse_test.cc:380-399 | "nul", "NAN" and "Inf" are BAD_VALUE whatever the handler says |
| `ReaderExamples.MalformedNumber` | test/parse_test.cc:380-399 | "+1", ".123", "1." and "-Infinity" are BAD_VALUE |
| `ReaderExamples.TrailingText` | test/parse_test.cc:401-409 | "null x" and "0123" are ROOT_NOT_SINGULAR |
| `ReaderExamples.StringErrors` | test/parse_test.cc:416-431 | no closing quote, an unknown escape and a raw 0x01 give MISS_QUOTATION_MARK, BAD_STRING_ESCAPE and BAD_STRING_CHAR |
| `ReaderExamples.RawNulAccepted` | include/neujson/reader.h:394 | a raw NUL is outside the rejected range 0x01-0x1F and is read as itself |
| `ReaderExamples.UnicodeErrors` | test/parse_test.cc:433-455 | "\u012" is BAD_UNICODE_HEX; a lone "\uD800" is BAD_UNICODE_SURROGATE |
| `ReaderExamples.SurrogatePair` | test/parse_test.cc:235-248 | "𝄞" is the one string of the four UTF-8 bytes F0 9D 84 9E |
| `ReaderExamples.ReadsOne` | test/parse_test.cc:151-157 | "1" is read as the Int32 1 |
| `ReaderExamples.ArrayErrors` | test/parse_test.cc:457-462 | "[1" and "[1}" are MISS_COMMA_OR_SQUARE_BRACKET; "[1,]" is BAD_VALUE |
| `ReaderExamples.ObjectKeyErrors` | test/parse_test.cc:464-478 | "{1:1," is MISS_KEY; {"a"} is MISS_COLON |
| `ReaderExamples.ObjectSeparatorError` | test/parse_test.cc:480-486 | {"a":1 is MISS_COMMA_OR_CURLY_BRACKET |
| `ReaderExamples.Int32EdgeDigits` | test/parse_test.cc:151-157 | the digits of 2147483647 and 2147483648 spell those numbers |
| `ReaderExamples.WholeNumber` | include/neujson/reader.h:362-376 | a whole number is Int32 in the int32 range, Int64 in the int64 range only, NUMBER_TOO_BIG beyond |
| `ReaderExamples.Int32Edge` | test/parse_test.cc:151-177 | 2147483647 and -2147483648 are Int32 calls; 2147483648 is an Int64 call |
| `Documents.Last` | include/neujson/document.h:56-62 | lastValue: the last element of an array, or the value of an object's last member, a sub-term of the container |
| `Documents.WithLast` | include/neujson/document.h:56-62 | replacing the last child keeps the container's tag and other children |
| `Documents.Append` | include/neujson/document.h:172-188 | addValue in a Level: the array gains the element, or the object gains the member under the pending key |
| `Documents.ValueOf` | include/neujson/document.h:78-111 | the value each handler call hands to addValue is well-formed |
| `Documents.FeedSplit` | include/neujson/document.h:78-137 | feeding a + b is feeding b to the state a leaves |
| `Documents.AddValueShape` | include/neujson/document.h:139-190 | addValue succeeds in exactly three ways: the first root, a value placed in a Level, or a pending key |
| `Documents.AddValueInv` | include/neujson/document.h:139-190 | addValue keeps the invariant; the first value becomes the root; a non-key value becomes the top Level's last child |
| `Documents.PushInv` | include/neujson/document.h:113-130 | StartObject/StartArray keep the invariant and open a new empty container at a count of 0 |
| `Documents.PopInv` | include/neujson/document.h:119-137 | EndObject/EndArray keep the invariant and drop one Level, leaving the root alone |
| `Documents.StepInv` | include/neujson/document.h:78-190 | every handler call keeps the invariant, and a root once seen stays seen |
| `Documents.ReachableInv` | include/neujson/document.h:27-30 | every state a fresh Document reaches satisfies the invariant |
| `Documents.KeyAccepted` | include/neujson/document.h:179-183 | a Key call at an even count becomes the pending key and bumps the count |
| `Documents.InitialPush` | include/neujson/document.h:113-169 | the first StartArray/StartObject makes the empty container the root and opens it |
| `Documents.RoundTrip` | include/neujson/document.h:78-190 | a fresh Document fed the calls writeTo makes for a value with distinct keys ends holding that value, with no Level open |
| `Documents.Document.constructor` | include/neujson/document.h:27-30 | a new Document has no root value, no Level and no pending key |
| `Documents.Document.AddValueCall` | include/neujson/document.h:139-190 | addValue takes exactly the `AddValueStep` transition |
| `Documents.Document.Null` | include/neujson/document.h:78-81 | returns true and takes the Null step |
| `Documents.Document.Bool` | include/neujson/document.h:83-86 | returns true and takes the Bool step |
| `Documents.Document.Int32` | include/neujson/document.h:88-91 | returns true and takes the Int32 step |
| `Documents.Document.Int64` | include/neujson/document.h:93-96 | returns true and takes the Int64 step |
| `Documents.Document.Double` | include/neujson/document.h:98-101 | returns true and takes the Double step |
| `Documents.Document.String` | include/neujson/document.h:103-106 | returns true and takes the String step |
| `Documents.Document.Key` | include/neujson/document.h:108-111 | returns true and takes the Key step |
| `Documents.Document.StartObject` | include/neujson/document.h:113-117 | returns true; adds an empty object and opens a Level for it |
| `Documents.Document.EndObject` | include/neujson/document.h:119-124 | returns true; closes the top Level, which must be an object |
| `Documents.Document.StartArray` | include/neujson/document.h:126-130 | returns true; adds an empty array and opens a Level for it |
| `Documents.Document.EndArray` | include/neujson/document.h:132-137 | returns true; closes the top Level, which must be an array |
| `Documents.Document.Handle` | include/neujson/document.h:78-137 | any handler call, dispatched by kind, takes that call's step |
| `DocumentParse.ParseBuilds` | include/neujson/document.h:64-76 | a successful parse whose objects repeat no key leaves the Document holding the value read, with no Level open |
| `DocumentParse.RepeatedKeyRejected` | include/neujson/document.h:185 | {"a":1,"a":2} trips addMember's no-duplicate assertion at the second value |
| `Writer.Separator` | include/neujson/writer.h:97-102 | Prefix writes nothing for the root or a first value; ':' exactly after a key; ',' otherwise |
| `Writer.Counted` | include/neujson/writer.h:95-112 | the innermost Level counts one more value, or the root is taken |
| `Writer.HexUpper` | include/neujson/writer.h:198 | a "%X" digit, read back as its value |
| `Writer.Hex4Upper` | include/neujson/writer.h:198 | "%04X" prints four digits |
| `Writer.EscapeChar` | include/neujson/writer.h:178-203 | one character's text: itself exactly when it is neither '"', '\' nor a control character; otherwise a backslash escape |
| `Writer.Quoted` | include/neujson/writer.h:175-207 | the string's text starts and ends with '"' |
| `Writer.DoubleText` | include/neujson/writer.h:142-173 | "Infinity" for either infinity, "NaN" for a NaN, else the %.17g text with ".0" added when it is all digits |
| `Writer.Close` | include/neujson/writer.h:55-73 | EndObject/EndArray need the top Level to be of that kind; they pop it and write the bracket |
| `Writer.StepScalar` | include/neujson/writer.h:40-46 | a scalar call writes the separator and then its text |
| `Writer.StepOpen` | include/neujson/writer.h:49-66 | StartObject/StartArray write the separator and the bracket and open a Level |
| `Writer.SignedDecimalBound` | include/neujson/writer.h:126-140 | buf[16] and buf[32] are wide enough for any int32 and any int64 text |
| `Writer.WriteInt32AsWritten` | include/neujson/writer.h:126-132 | as written: the first CountDecimalDigit32 characters of the zeroed buffer |
| `Writer.WriteInt64AsWritten` | include/neujson/writer.h:134-140 | as written: the first CountDecimalDigit64 characters of the zeroed buffer |
| `Writer.WriteEscape` | include/neujson/writer.h:179-203 | one turn of the switch appends exactly `EscapeChar(c)` |
| `Writer.WriteString` | include/neujson/writer.h:175-213 | appends exactly `Quoted(s)`: a quote, each character escaped in order, a quote |
| `Writer.WriteInt32` | include/neujson/writer.h:126-132 | with the length taken from i32toa's end, appends exactly the decimal text |
| `Writer.WriteInt64` | include/neujson/writer.h:134-140 | with the length taken from i64toa's end, appends exactly the decimal text |
| `Writer.WriteDouble` | include/neujson/writer.h:142-173 | appends exactly `DoubleText` |
| `Writer.Writer.constructor` | include/neujson/writer.h:36 | a new writer has no Level and no root |
| `Writer.Writer.Prefix` | include/neujson/writer.h:94-112 | writes the separator and takes the `Counted` state |
| `Writer.Writer.EndValue` | include/neujson/writer.h:239-249 | returns the write's result and adds no text |
| `Writer.Writer.Null` | include/neujson/writer.h:40 | returns true; the new state and the text appended are those of the step |
| `Writer.Writer.Bool` | include/neujson/writer.h:41 | the same for Bool |
| `Writer.Writer.Int32` | include/neujson/writer.h:42 | the same for Int32 |
| `Writer.Writer.Int64` | include/neujson/writer.h:43 | the same for Int64 |
| `Writer.Writer.Double` | include/neujson/writer.h:44 | the same for Double |
| `Writer.Writer.String` | include/neujson/writer.h:45 | the same for String |
| `Writer.Writer.Key` | include/neujson/writer.h:46 | the same for Key |
| `Writer.Writer.StartObject` | include/neujson/writer.h:49-53 | the same for StartObject |
| `Writer.Writer.EndObject` | include/neujson/writer.h:55-60 | the same for EndObject |
| `Writer.Writer.StartArray` | include/neujson/writer.h:62-66 | the same for StartArray |
| `Writer.Writer.EndArray` | include/neujson/writer.h:68-73 | the same for EndArray |
| `WriterProps.ScalarRun` | include/neujson/writer.h:40-46 | a scalar's call writes the separator and the value's compact text |
| `WriterProps.ArrayRun` | include/neujson/writer.h:62-73 | the calls of an array write '[' + the elements' texts, comma-separated + ']' |
| `WriterProps.ObjectRun` | include/neujson/writer.h:49-60 | the calls of an object write '{' + "key":value pairs, comma-separated + '}' |
| `WriterProps.WriteValue` | include/neujson/writer.h:36-249 | a fresh writer fed the calls of writeTo for a value writes exactly its compact text and ends with a finished root and no Level |
| `WriterProps.SingleRoot` | include/neujson/writer.h:108-110 | once the root is complete no further value can start and nothing can close |
| `WriterProps.KeyMustBeString` | include/neujson/writer.h:104-106 | in an object, a non-string call where a key is expected fails the assertion |
| `WriterProps.HexReadsBack` | include/neujson/writer.h:198 | the four digits "%04X" prints are read back by ParseHex4 as the value printed |
| `WriterProps.EscapeShape` | include/neujson/writer.h:178-203 | every escape is one character, a backslash and a letter, or \u and four digits |
| `WriterProps.EscapeReadsBack` | include/neujson/writer.h:178-203 | the reader's string loop decodes every escape back to its character |
| `WriterProps.QuotedReadsBack` | include/neujson/writer.h:175-207 | whatever follows it, a string WriteString wrote is parsed back to the same characters, ending just after the closing quote |
| `WriterProps.Int32CastDigits` | include/neujson/writer.h:130 | the length WriteInt32 takes is the text's length for non-negative values and 10 for every negative one |
| `WriterProps.Int64CastDigits` | include/neujson/writer.h:138 | the length WriteInt64 takes is the text's length for non-negative values and 19 or 20 for negative ones |
| `WriterProps.Int32AsWrittenIff` | include/neujson/writer.h:126-132 | as written, WriteInt32 is right exactly for values >= 0 and for negatives of nine digits |
| `WriterProps.Int32AsWrittenNegative` | include/neujson/writer.h:126-132 | otherwise short negatives are padded with NULs to ten characters, and long ones lose their last digit |
| `WriterProps.Int64AsWrittenIff` | include/neujson/writer.h:134-140 | as written, WriteInt64 is right exactly for values >= 0 and for the negatives of the text length the cast happens to give |
| `WriterProps.Int32AsWrittenExamples` | test/round_trip.cc:47-53 | -1234567890 and -2147483648 come out one digit short; -1 is followed by eight NULs |
| `WriterProps.Int64AsWrittenExamples` | test/round_trip.cc:68-74 | INT64_MIN loses its last digit; -1 is followed by eighteen NULs |
| `WriterProps.StringTestPlain` | test/round_trip.cc:111-113 | "" and "Hello" are written back as read |
| `WriterProps.StringTestNewline` | test/round_trip.cc:114 | a newline is written as \n |
| `WriterProps.StringTestNul` | test/round_trip.cc:116 | a NUL is written as \u0000 |
| `Pretty.ArrayLayout` | include/neujson/pretty_writer.h:128-138 | in an array: a comma after the first element, then a newline and the indent; on a single line ", " alone |
| `Pretty.ObjectLayout` | include/neujson/pretty_writer.h:139-155 | in an object: a key at the start of an indented line (after ",\n" unless first); a value after ": " |
| `Pretty.RootLayout` | include/neujson/pretty_writer.h:160-163 | with no Level open nothing is written before a value |
| `Pretty.PrettyStepScalar` | include/neujson/pretty_writer.h:52-58 | a scalar call writes the pretty separator, then its text |
| `Pretty.PrettyWriter.constructor` | include/neujson/pretty_writer.h:35-37 | default options and an indent of two spaces |
| `Pretty.PrettyWriter.InitIndent` | include/neujson/pretty_writer.h:166-173 | the indent unit is count copies of the character |
| `Pretty.PrettyWriter.SetIndent` | include/neujson/pretty_writer.h:39-43 | only a space, tab, newline or carriage return may be the indent character |
| `Pretty.PrettyWriter.SetFormatOptions` | include/neujson/pretty_writer.h:45-48 | sets the options and nothing else |
| `Pretty.PrettyWriter.WriteIndent` | include/neujson/pretty_writer.h:175-181 | writes the unit once per open Level |
| `Pretty.PrettyWriter.PrettyPrefix` | include/neujson/pretty_writer.h:122-164 | writes `PrettySeparator` and takes the `Counted` state |
| `Pretty.PrettyWriter.ArraySeparator` | include/neujson/pretty_writer.h:128-138 | the array branch writes `PrettySeparator` |
| `Pretty.PrettyWriter.ObjectSeparator` | include/neujson/pretty_writer.h:139-155 | the object branch writes `PrettySeparator` |
| `Pretty.PrettyWriter.EndValue` | include/neujson/writer.h:239-244 | returns the write's result and adds no text |
| `Pretty.PrettyWriter.PrefixedString` | include/neujson/pretty_writer.h:57-58 | String and Key: the prefix, then the quoted, escaped text |
| `Pretty.PrettyWriter.Null` | include/neujson/pretty_writer.h:52 | returns true; the new state and the text are those of the pretty step |
| `Pretty.PrettyWriter.Bool` | include/neujson/pretty_writer.h:53 | the same for Bool |
| `Pretty.PrettyWriter.Int32` | include/neujson/pretty_writer.h:54 | the same for Int32 |
| `Pretty.PrettyWriter.Int64` | include/neujson/pretty_writer.h:55 | the same for Int64 |
| `Pretty.PrettyWriter.Double` | include/neujson/pretty_writer.h:56 | the same for Double |
| `Pretty.PrettyWriter.String` | include/neujson/pretty_writer.h:57 | the same for String |
| `Pretty.PrettyWriter.Key` | include/neujson/pretty_writer.h:58 | the same for Key |
| `Pretty.PrettyWriter.StartObject` | include/neujson/pretty_writer.h:61-65 | the same for StartObject |
| `Pretty.PrettyWriter.EndObject` | include/neujson/pretty_writer.h:67-86 | the same for EndObject: a newline and indent before '}' unless the object is empty |
| `Pretty.PrettyWriter.StartArray` | include/neujson/pretty_writer.h:88-92 | the same for StartArray |
| `Pretty.PrettyWriter.EndArray` | include/neujson/pretty_writer.h:94-112 | the same for EndArray: a newline and indent before ']' unless empty or single-line |
| `PrettyProps.SeparatorSkeleton` | include/neujson/pretty_writer.h:122-164 | PrettyPrefix's text with whitespace removed is Prefix's separator |
| `PrettyProps.StepAgrees` | include/neujson/pretty_writer.h:67-72 | a pretty call goes through exactly where the compact one does, except EndObject after a key with no value, and reaches the same state |
| `PrettyProps.StepSkeleton` | include/neujson/pretty_writer.h:50-112 | call by call, the pretty text with whitespace removed equals the compact text with whitespace removed |
| `PrettyProps.PrettyValueRun` | include/neujson/pretty_writer.h:50-164 | the calls of a value, made where PrettyPrefix accepts its type, all go through; they count one value and write PrettyPrefix's text and then `PrettyText` of the value |
| `PrettyProps.PrettyElemsRun` | include/neujson/pretty_writer.h:128-138 | inside an array, the elements' calls go through and write each element on its own indented line, or after ", " on a single line |
| `PrettyProps.PrettyMembersRun` | include/neujson/pretty_writer.h:139-157 | inside an object, the members' calls go through and write each key on its own indented line, then ": " and the value |
| `PrettyProps.PrettyWriteValue` | include/neujson/pretty_writer.h:17-164 | a fresh pretty writer fed writeTo's calls for any well-formed value accepts every call, ends with a finished root and nothing open, and writes exactly `PrettyText` of the value: the compact writer's scalar and key texts unchanged, whitespace only before elements, keys and closing brackets |
| `PrettyProps.PrettyValue` | include/neujson/pretty_writer.h:17-164 | with an indent of whitespace, the same run, and the pretty text minus whitespace is the compact text minus whitespace |
| `Itoa.Decimal` | include/neujson/internal/itoa.h:30-99 | the reference decimal text: at least one digit |
| `Itoa.DecimalSplit` | include/neujson/internal/itoa.h:67-98 | the text of a 10^k + c, with c < 10^k, is a's text followed by c's k-digit padding |
| `Itoa.PadConcat` | include/neujson/internal/itoa.h:112-259 | padded digits split at a power of ten |
| `Itoa.ListingIsLut` | include/neujson/internal/itoa.h:16-27 | the listed table is, entry for entry, the two digits of 0 … 99 |
| `Itoa.PairIsPad` | include/neujson/internal/itoa.h:16-27 | entries 2k and 2k+1 are the two-digit padding of k |
| `Itoa.DigitsBound` | include/neujson/internal/itoa.h:30-259 | a uint32_t has at most ten digits, a uint64_t at most twenty |
| `Itoa.Lead4` | include/neujson/internal/itoa.h:33-43 | below 10^4 the guarded stores leave out exactly the leading zeros |
| `Itoa.Mid8` | include/neujson/internal/itoa.h:44-66 | between 10^4 and 10^8: the guarded high group, then four digits |
| `Itoa.Lead8` | include/neujson/internal/itoa.h:155-193 | u64toa's middle branch writes the leading eight digits under seven guards |
| `Itoa.UpperSplit` | include/neujson/internal/itoa.h:194-258 | a value of 17 or more digits is 1-4 leading digits, then sixteen |
| `Itoa.PutBelow8` | include/neujson/internal/itoa.h:33-66 | below 10^8 the stores write exactly the decimal text, nothing else changes |
| `Itoa.PutUpper32` | include/neujson/internal/itoa.h:67-98 | the ten-digit branch writes exactly the decimal text |
| `Itoa.U32ToA` | include/neujson/internal/itoa.h:30-99 | writes exactly the decimal text from the start position and returns its end; nothing else changes |
| `Itoa.ToUnsigned` | include/neujson/internal/itoa.h:103 | static_cast to unsigned is reduction modulo 2^n |
| `Itoa.Negate` | include/neujson/internal/itoa.h:106 | ~u + 1 is the additive inverse modulo 2^n |
| `Itoa.Magnitude` | include/neujson/internal/itoa.h:103-107 | for a negative value, ~u + 1 of its cast is its magnitude |
| `Itoa.SignedParts` | include/neujson/internal/itoa.h:101-110 | the signed text is the cast's text, or '-' and the text of ~u + 1 |
| `Itoa.I32ToA` | include/neujson/internal/itoa.h:101-110 | writes exactly the signed decimal text and returns its end; nothing else changes |
| `Itoa.PutMiddle64` | include/neujson/internal/itoa.h:155-193 | the 10^8 … 10^16 branch writes exactly the decimal text |
| `Itoa.PutUpper64` | include/neujson/internal/itoa.h:194-258 | the top branch writes exactly the decimal text |
| `Itoa.U64ToA` | include/neujson/internal/itoa.h:112-259 | writes exactly the decimal text and returns its end; nothing else changes |
| `Itoa.I64ToA` | include/neujson/internal/itoa.h:261-270 | writes exactly the signed decimal text and returns its end; nothing else changes |
| `DigitCount.CountDecimalDigit32` | neujson/internal/itoa.h:12-24 | the number of decimal digits of n (1 for 0), at most 10 |
| `DigitCount.CountDecimalDigit64` | neujson/internal/itoa.h:26-48 | the number of decimal digits of n (1 for 0), at most 20 |
| `DigitCount.DigitsAt` | neujson/internal/itoa.h:12-48 | the digit count read off the power-of-ten interval n lies in |
| `Clz.LeadingZeros` | include/neujson/internal/cllzl.h:23-56 | the reference count r: 2^(63-r) <= n < 2^(64-r) |
| `Clz.LeadingZerosUnique` | include/neujson/internal/cllzl.h:23-56 | those bounds fix r |
| `Clz.ShiftSetsTopBit` | include/neujson/internal/cllzl.h:47-51 | shifting by the count keeps every bit and sets bit 63 |
| `Clz.Clzll` | include/neujson/internal/cllzl.h:45-53 | the shifting loop returns the leading-zero count of a nonzero word |
| `Clz.TestValues` | test/clzll_test.cc:11-17 | clzll of 1, 2, 12, 0x80000001, 0x8000000000000001 is 63, 62, 60, 32, 0 |
| `Fp.FromBits` | include/neujson/internal/diy_fp.h:41-56 | a normal double gets the hidden bit and the unbiased exponent; a denormal gets the minimum exponent + 1 |
| `Fp.SignIgnored` | include/neujson/internal/diy_fp.h:41-56 | the sign bit does not change the result |
| `Fp.DiyFp.Normalize` | include/neujson/internal/diy_fp.h:58-61 | the same number, with bit 63 set, the exponent lowered by the leading-zero count |
| `Fp.DiyFp.ToDouble` | include/neujson/internal/diy_fp.h:63-80 | 0.0 below the smallest exponent, +infinity from the largest on, else the fraction bits and the biased exponent (0 for a denormal) |
| `Fp.FromBitsToDouble` | include/neujson/internal/diy_fp.h:41-80 | every non-negative finite double's bits come back from ToDouble |
| `Fp.ToDoubleFromBits` | include/neujson/internal/diy_fp.h:41-80 | a normal or denormal (f, e) comes back through the bits |
| `Fp.DiyFp.Sub` | include/neujson/internal/diy_fp.h:82-84 | the significand difference modulo 2^64, the exponent kept |
| `Fp.DiyFp.Mul` | include/neujson/internal/diy_fp.h:86-113 | the high 64 bits of the product rounded at bit 63, the exponents added plus 64 |
| `Fp.MulHigh` | include/neujson/internal/diy_fp.h:99-111 | the 32-bit-halves computation is (x y + 2^63) / 2^64 |
| `Decimals.DecimalSnoc` | include/neujson/internal/big_integer.h:239-242 | one more digit: ten times the number plus the digit |
| `Decimals.ChunkSplit` | include/neujson/internal/big_integer.h:46-57 | the digits up to j are those up to i followed by the chunk from i to j |
| `Decimals.NineteenDigits` | include/neujson/internal/big_integer.h:47 | up to 19 digits fit in a uint64_t |
| `BigInts.MulAdd64` | include/neujson/internal/big_integer.h:262-279 | the portable branch gives the low and high halves of a b + k |
| `BigInts.Mul32Limb` | include/neujson/internal/big_integer.h:170-177 | one limb from 32-bit halves with no overflow, equal to `MulAdd64` |
| `BigInts.ParseUint64` | include/neujson/internal/big_integer.h:236-244 | the digits' value modulo 2^64 |
| `BigInts.NormalUnique` | include/neujson/internal/big_integer.h:32-33 | a number has one representation with no high zero limbs |
| `BigInts.ShiftLimbsValue` | include/neujson/internal/big_integer.h:84-112 | the intended shift multiplies by 2^shift and keeps the representation normal |
| `BigInts.BigInteger.FromU64` | include/neujson/internal/big_integer.h:36 | holds the value u in one limb |
| `BigInts.BigInteger.Copy` | include/neujson/internal/big_integer.h:38-40 | holds the same limbs as the original |
| `BigInts.BigInteger.FromDecimals` | include/neujson/internal/big_integer.h:43-58 | holds the number the digits spell, read 19 digits at a time and then the rest |
| `BigInts.BigInteger.AssignFrom` | include/neujson/internal/big_integer.h:60-66 | takes the other's limbs |
| `BigInts.BigInteger.AssignU64` | include/neujson/internal/big_integer.h:68-72 | holds u in one limb |
| `BigInts.BigInteger.Equals` | include/neujson/internal/big_integer.h:74-78 | true exactly when the numbers are equal |
| `BigInts.BigInteger.EqualsU64` | include/neujson/internal/big_integer.h:80-82 | true exactly when the number is that value |
| `BigInts.BigInteger.IsZero` | include/neujson/internal/big_integer.h:218 | as intended: true exactly for 0 |
| `BigInts.BigInteger.PushBack` | include/neujson/internal/big_integer.h:221-224 | one more limb on top, below the capacity |
| `BigInts.BigInteger.AddU64` | include/neujson/internal/big_integer.h:114-130 | the number grows by u |
| `BigInts.BigInteger.AddLimbs` | include/neujson/internal/big_integer.h:115-127 | the carry loop and push compute `AddAt` |
| `BigInts.BigInteger.MulU64` | include/neujson/internal/big_integer.h:132-155 | the number is multiplied by u |
| `BigInts.BigInteger.MulLimbsU64` | include/neujson/internal/big_integer.h:143-152 | the loop and push compute `MulFrom` |
| `BigInts.BigInteger.MulU32` | include/neujson/internal/big_integer.h:157-185 | the number is multiplied by u |
| `BigInts.BigInteger.MulLimbsU32` | include/neujson/internal/big_integer.h:168-182 | the loop and push compute `MulFrom` |
| `BigInts.BigInteger.ShiftLeft` | include/neujson/internal/big_integer.h:84-112 | as intended: the number is multiplied by 2^shift |
| `BigInts.BigInteger.MoveUp` | include/neujson/internal/big_integer.h:94-95 | the memmove moves the limbs up by the offset |
| `BigInts.BigInteger.ClearBelow` | include/neujson/internal/big_integer.h:109 | the memset clears the offset limbs below |
| `BigInts.BigInteger.BitLoop` | include/neujson/internal/big_integer.h:97-101 | each limb moves up by the offset, shifted, with the bits of the limb below brought in |
| `BigInts.BigInteger.ShiftBitsUp` | include/neujson/internal/big_integer.h:96-106 | the bit branch produces the shifted limbs, with one more limb exactly when bits reach it |
| `BigInts.BigInteger.MultiplyPow5` | include/neujson/internal/big_integer.h:187-216 | the number is multiplied by 5^exponent |
| `BigInts.Pow5Constants` | include/neujson/internal/big_integer.h:188-210 | the constants are 5^27, 5^13 and the table 5^1 … 5^12 |
| `BigInts.BigInteger.AppendDecimal64` | include/neujson/internal/big_integer.h:226-234 | as intended: the number becomes itself times 10^n plus the chunk |
| `BigIntsAsWritten.IsZeroAsWritten` | include/neujson/internal/big_integer.h:218 | as written: true exactly for the number 1 |
| `BigIntsAsWritten.IsZeroAsWrittenWrong` | include/neujson/internal/big_integer.h:218 | 0 is not "zero" and 1 is |
| `BigIntsAsWritten.ShiftAsWritten` | include/neujson/internal/big_integer.h:84-112 | as written: a whole-limb shift only; an odd shift / 64 is undefined behaviour |
| `BigIntsAsWritten.ShiftAsWrittenIgnoresSmall` | include/neujson/internal/big_integer.h:90 | a shift by 1 … 63 bits leaves the number as it was |
| `BigIntsAsWritten.ShiftAsWrittenWrong` | include/neujson/internal/big_integer.h:84-112 | [3] shifted by 1 stays [3] and by 64 is undefined, where [6] and [0, 3] were meant |
| `BigIntsAsWritten.AppendAsWritten` | include/neujson/internal/big_integer.h:226-234 | as written: 1 is replaced by the chunk; any other number is multiplied by 5^n, not 10^n |
| `BigIntsAsWritten.DecimalsAsWritten` | include/neujson/internal/big_integer.h:43-58 | as written it is right from 0 for at most 19 digits |
| `BigIntsAsWritten.DecimalsAsWrittenWrong` | include/neujson/internal/big_integer.h:43-58 | 10^19 (twenty digits) is read as 5 × 10^18 |
| `RoundTrips.DecimalReads` | include/neujson/reader.h:324-328 | the decimal text of n is digits only, has no leading zero, and the digit scan's value of it is n |
| `RoundTrips.StollReads` | include/neujson/reader.h:362-376 | the signed text of an int64 is '-' or a digit, then digits, and std::stoll gives the value back |
| `RoundTrips.IntegerReads` | include/neujson/reader.h:321-381 | the text of an int64 that ends the input or is followed by ',', ']' or '}' is read to its end as an Int32 call when it fits int32 and as an Int64 call otherwise |
| `RoundTrips.FirstChar` | include/neujson/reader.h:505-518 | a compact text starts with no whitespace and with neither ']' nor '}', so skipping whitespace stays put |
| `RoundTrips.ValueReads` | include/neujson/reader.h:505-518 | wherever it sits and whatever closing character follows, the compact text of a value with no double is read by ParseValue to its end, with exactly writeTo's calls, as that value |
| `RoundTrips.LiteralReads` | include/neujson/reader.h:288-308 | "null", "true" and "false" are read back as the value written, with its one call |
| `RoundTrips.StringValueReads` | include/neujson/reader.h:383-441 | a quoted string is read back as the same characters, with one String call |
| `RoundTrips.IntValueReads` | include/neujson/reader.h:310-381 | an integer's text is read back as the same INT32 or INT64 value |
| `RoundTrips.ArrayReads` | include/neujson/reader.h:443-466 | an array's compact text is read back as the same elements, with StartArray, the elements' calls and EndArray |
| `RoundTrips.ObjectReads` | include/neujson/reader.h:468-501 | an object's compact text is read back as the same members, in order, with StartObject, each Key and value, and EndObject |
| `RoundTrips.ElementsRead` | include/neujson/reader.h:455-464 | from any element on, the element loop reads the rest of the elements and the ']' |
| `RoundTrips.MembersRead` | include/neujson/reader.h:480-499 | from any member on, the member loop reads the rest of the members and the '}' |
| `RoundTrips.ParseCompact` | include/neujson/reader.h:89-100 | Parse of a whole compact text is OK at its end, makes writeTo's calls and reads the value written |
| `RoundTrips.CompactRoundTrip` | test/round_trip.cc:119-154 | for a value with no double and distinct keys: parsing its compact text is OK and gives the value; the Document then holds it; writeTo of it makes every call; and the Writer writes the same text again |
| `RoundTripTests.CompactWritesBack` | test/round_trip.cc:119-130 | the compact text of such a value passes the checks of the round-trip macros |
| `RoundTripTests.Bools` | test/round_trip.cc:29-32 | "true" and "false" are parsed to BOOL and written back unchanged |
| `RoundTripTests.Int32s` | test/round_trip.cc:47-51 | "0", "1234567890" and "2147483647" are parsed to INT32 and written back unchanged |
| `RoundTripTests.Int64s` | test/round_trip.cc:68-72 | "12345678901234" and "9223372036854775807" are parsed to INT64 and written back unchanged |
| `RoundTripTests.PlainStrings` | test/round_trip.cc:112-113 | "" and "Hello" are parsed to STRING and written back unchanged |
| `RoundTripTests.NewlineString` | test/round_trip.cc:114 | "Hello\nWorld" is written back with its \n escape |
| `RoundTripTests.EscapesString` | test/round_trip.cc:115 | the string with every two-character escape and a '/' is written back unchanged: '/' is not escaped |
| `RoundTripTests.NulString` | test/round_trip.cc:116 | "Hello\u0000World" is written back with its \u0000 escape |
| `RoundTripTests.EmptyArray` | test/round_trip.cc:133 | "[]" is parsed to ARRAY and written back unchanged |
| `RoundTripTests.MixedArray` | test/round_trip.cc:134 | [null,false,true,123,"abc",[1,2,3]] is parsed to ARRAY and written back unchanged |
| `RoundTripTests.NestedArray` | test/round_trip.cc:135 | [[],[0],[0,1],[0,1,2]] is parsed to ARRAY and written back unchanged |
| `RoundTripTests.EmptyObject` | test/round_trip.cc:152 | "{}" is parsed to OBJECT and written back unchanged |
| `RoundTripTests.NamedObject` | test/round_trip.cc:153 | the seven-member object, with a nested array and object, is parsed to OBJECT and written back unchanged |

## Left out

- SIMD whitespace skippers (SSE4.2, NEON): left out because they are alternatives to `ParseWhitespaceBasic`, which is modelled.
- std::stod and printf("%.17g"): these are parameters (`stod`, `fmt`), because they are floating point.
  - `FormatOk` demands a text of 1 to 31 characters, the 32-character buffer.
  - The strtod, ieee754 and Grisu code that implements them is not part of this model.
- I/O adapters (file streams, iostream wrappers): left out.
- Flushing to a real device: left out; `Flush` is a no-op on the in-memory stream.
- Shared ownership of a `Value`'s string, array and object storage: left out, because values are held as Dafny values.
  - So aliasing between copies and the `shared_ptr` copy of `operator=` are not captured.
  - A copy is the same value.
- Value's setters are not modelled separately: a setter is destruction followed by a constructor, and the constructors are modelled. The same goes for the `memberBegin`/`memberEnd` iterators.
- Exceptions as control flow: the reader's helpers return the error code instead of throwing it.
  - The specification functions carry the first error and the position reached.
  - In `Reader.ParseNumeric`, in `Reader.Report` (the handler call itself) and in `ReaderSpec.ConvertSpec` the handler call sits outside the `catch (...)`. `ReaderProps.ConvertAsWritten` models the code as written; see Findings.
- `Document` cannot be passed to the reader as its handler without a trait. `DocumentParse.ParseBuilds` therefore composes `ParseSpec` with the Document's `Feed` on the handler calls, which are the ones a handler that always answers true receives.
- The `Document` walks rightmost paths and the no-duplicate-key check with value semantics. The addresses each `Level` keeps into the tree are not modelled.
- include/neujson/document.cc, include/neujson/reader.cc and the older `neujson/` snapshot repeat the core and are not part of this model. The exception is `CountDecimalDigit32/64`, which comes from `neujson/internal/itoa.h`.
- Platform branches are left out:
  - `_BitScanReverse` / `__builtin_clzll` in clzll;
  - `_umul128` and `__int128` in `DiyFp::operator*` and `MulAdd64`.
  
  Only the portable branches are modelled.
- `Writer.Writer.Int32`: writes the full signed text of the value (`SignedDecimal`), the text evidently intended. As written, a negative value is cut short or padded with NULs. That text is `Writer.Int32TextAsWritten`, written by `Writer.WriteInt32AsWritten`; `WriterProps.Int32AsWrittenIff` says when the two agree (see Findings).
- `Writer.Writer.Int64`: the same, with `Writer.WriteInt64AsWritten` and `WriterProps.Int64AsWrittenIff`.
- `Pretty.PrettyWriter.Int32`: the same as `Writer.Writer.Int32`; the pretty writer shares the compact writer's number code.
- `Pretty.PrettyWriter.Int64`: the same as `Writer.Writer.Int64`.
- `WriterProps.WriteValue`: the text it states is built from the corrected integer texts above. So for a value holding a negative integer it is the intended text, not the one the source writes.
- `PrettyProps.PrettyValue`: the same as `WriterProps.WriteValue`, for the pretty writer. `PrettyText` uses the corrected integer texts too, and so do `PrettyProps.PrettyWriteValue` and `PrettyProps.PrettyValueRun`.
- `ReaderSpec.DecodeUtf8` does not refuse the surrogate code points 0xD800-0xDFFF, as section 3 of RFC 3629 would. A lone low-surrogate escape such as "\uDC00" passes the reader's checks (include/neujson/reader.h:414-429), and `EncodeUtf8` writes its three bytes like any other code point's. A decoder that refused them would not read those bytes back.
- Calls the shipped headers make to names they do not declare are read as calls to the member that is declared. As written, these would not compile:
  - include/neujson/document.h:75 calls `Reader::parse`, but include/neujson/reader.h:42 declares `Parse`;
  - include/neujson/document.h:23 and :140 call `GetType()`, but include/neujson/value.h:89 declares `getType()`;
  - test/round_trip.cc calls `doc.Parse`, `doc.GetType` and `doc.WriteTo`, where document.h declares `parse` and value.h declares `getType` and `writeTo`.
  - include/neujson/writer.h:116, :122, :130, :138 and :171, and the escapes at :181-199, call `os_.put` with a `const char*` or a `string_view`. include/neujson/string_write_stream.h:20-30 declares only `put(char)`, `puts` and `put_sv`, so these are read as `put_sv`. include/neujson/file_write_stream.h:27-31 does declare both overloads.
- `BigInts.BigInteger.ShiftLeft`: requires one limb more room than the source's assertion when the shift has a bit part. In that branch the source writes `digits_[count_ + offset]`, which is past the end when `count_ + offset == kCapacity`.
- `BigInts.BigInteger.FromDecimals`: requires the number to fit in kCapacity - 1 limbs, so that the shift inside each chunk has its spare limb.
- `BigInts.BigInteger.AppendDecimal64`: requires the same room as `FromDecimals`.
- `BigInts.BigInteger.FromDecimals`: the source's `if (length > 0)` after the loop always holds. It is modelled as an unconditional last chunk.
- `BigInts.Mul32Limb`: the source's `|` of two disjoint bit ranges is modelled as `+`. The same holds for the `|` in `Fp.DiyFp.ToDouble`.
- `ReaderExamples.WholeNumber`, `ReaderExamples.Int32Edge` and `ReaderExamples.ReadsOne` are stated for a handler that accepts every call. For any handler, `ReaderProps.ParseHonest` covers refusals.
- The round-trip tests on doubles (test/round_trip.cc:89-96) are not restated: the text depends on printf and std::stod, which are parameters here. `RoundTrips.Reparses` therefore excludes DOUBLE.
- The round-trip tests on negative integers (test/round_trip.cc:50, 52, 71, 73) are not restated as passing. As written, the Writer cuts or pads these texts; see Findings and `WriterProps.Int32AsWrittenExamples`.
- `RoundTrips.CompactRoundTrip`: an INT64 value inside the int32 range is read back as INT32, and a NULL is read back with the empty payload. `RoundTrips.Reparses` therefore excludes such values.
- The parser tests on doubles ("1e309" and other double texts in test/parse_test.cc) depend on std::stod and are not restated. Their shape is covered by `ReaderSpec.IntegerTextDigits`.

## Findings

| source | as written | input that shows it | evidently intended | confidence | as-written member | corrected member |
|---|---|---|---|---|---|---|
| include/neujson/reader.h:349-379 | the Double/Int32/Int64 handler call is inside `try`, so `catch (...)` turns its USER_STOPPED into NUMBER_TOO_BIG | "1" with a handler that refuses every call | USER_STOPPED, as for every other refused call | high (not executed) | `ReaderProps.ConvertAsWrittenMisreports` | `ReaderProps.ConvertStopsHonestly` |
| include/neujson/value.cc:28 | getSize of an ARRAY reads the STRING alternative, so std::get throws bad_variant_access | any array, e.g. `Value(NEU_ARRAY)` | the element count | high (not executed) | `Values.GetSizeOfArrayThrows` | `Values.GetSize` |
| include/neujson/writer.h:126-140 | the length of the Int32/Int64 text is `CountDecimalDigit32/64` of the value converted to unsigned, which ignores the sign | -1234567890 is written "-123456789"; -1 is written "-1" followed by eight NULs | the full signed text, whose length i32toa/i64toa return | high (not executed) | `WriterProps.Int32AsWrittenIff` | `Writer.WriteInt32` |
| include/neujson/writer.h:134-140 | the same for int64 | -9223372036854775808 loses its last digit | the full signed text | high (not executed) | `WriterProps.Int64AsWrittenIff` | `Writer.WriteInt64` |
| include/neujson/internal/big_integer.h:218 | `IsZero` tests `digits_[0] == 1` | the number 0 is not zero, and 1 is | `digits_[0] == 0` | high (not executed) | `BigIntsAsWritten.IsZeroAsWrittenWrong` | `BigInts.BigInteger.IsZero` |
| include/neujson/internal/big_integer.h:90 | the inner shift is `shift & kTypeBit` (0 or 64) | 3 <<= 1 stays 3; 3 <<= 64 shifts a limb by 64 bits | `shift % kTypeBit` | high (not executed) | `BigIntsAsWritten.ShiftAsWrittenWrong` | `BigInts.BigInteger.ShiftLeft` |
| include/neujson/internal/big_integer.h:43-58 | the two faults above make each 19-digit step multiply by 5^n instead of 10^n | "10000000000000000000" (10^19) is read as 5 × 10^18 | the decimal number | high (not executed) | `BigIntsAsWritten.DecimalsAsWrittenWrong` | `BigInts.BigInteger.FromDecimals` |

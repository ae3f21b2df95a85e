// Parse error codes of the codec and their fixed messages (include/neujson/exception.h).

module Errors {

  /** The fifteen parse outcomes, in the order of the error table. */
  datatype ParseError =
    | OK
    | ROOT_NOT_SINGULAR
    | BAD_VALUE
    | EXPECT_VALUE
    | NUMBER_TOO_BIG
    | BAD_STRING_CHAR
    | BAD_STRING_ESCAPE
    | BAD_UNICODE_HEX
    | BAD_UNICODE_SURROGATE
    | MISS_QUOTATION_MARK
    | MISS_COMMA_OR_SQUARE_BRACKET
    | MISS_KEY
    | MISS_COLON
    | MISS_COMMA_OR_CURLY_BRACKET
    | USER_STOPPED

  /** All codes in table order: position i holds the code whose enum value is i. */
  const AllCodes: seq<ParseError> := [
    OK, ROOT_NOT_SINGULAR, BAD_VALUE, EXPECT_VALUE, NUMBER_TOO_BIG,
    BAD_STRING_CHAR, BAD_STRING_ESCAPE, BAD_UNICODE_HEX, BAD_UNICODE_SURROGATE,
    MISS_QUOTATION_MARK, MISS_COMMA_OR_SQUARE_BRACKET, MISS_KEY, MISS_COLON,
    MISS_COMMA_OR_CURLY_BRACKET, USER_STOPPED]

  /** The (code, message) pairs of the error table macro. */
  function Message(e: ParseError): string
  {
    match e
    case OK => "ok"
    case ROOT_NOT_SINGULAR => "root not singular"
    case BAD_VALUE => "bad value"
    case EXPECT_VALUE => "expect value"
    case NUMBER_TOO_BIG => "number too big"
    case BAD_STRING_CHAR => "bad character"
    case BAD_STRING_ESCAPE => "bad escape"
    case BAD_UNICODE_HEX => "bad unicode hex"
    case BAD_UNICODE_SURROGATE => "bad unicode surrogate"
    case MISS_QUOTATION_MARK => "miss quotation mark"
    case MISS_COMMA_OR_SQUARE_BRACKET => "miss comma or square bracket"
    case MISS_KEY => "miss key"
    case MISS_COLON => "miss colon"
    case MISS_COMMA_OR_CURLY_BRACKET => "miss comma or curly bracket"
    case USER_STOPPED => "user stopped parse"
  }

  /** The message table, entry i being the message of enum value i. */
  const ErrStrTable: seq<string> := [
    "ok", "root not singular", "bad value", "expect value", "number too big",
    "bad character", "bad escape", "bad unicode hex", "bad unicode surrogate",
    "miss quotation mark", "miss comma or square bracket", "miss key", "miss colon",
    "miss comma or curly bracket", "user stopped parse"]

  /** The enum value of a code: its position in the table. */
  function Code(e: ParseError): (n: nat)
    ensures n < |AllCodes| && AllCodes[n] == e
  {
    match e
    case OK => 0
    case ROOT_NOT_SINGULAR => 1
    case BAD_VALUE => 2
    case EXPECT_VALUE => 3
    case NUMBER_TOO_BIG => 4
    case BAD_STRING_CHAR => 5
    case BAD_STRING_ESCAPE => 6
    case BAD_UNICODE_HEX => 7
    case BAD_UNICODE_SURROGATE => 8
    case MISS_QUOTATION_MARK => 9
    case MISS_COMMA_OR_SQUARE_BRACKET => 10
    case MISS_KEY => 11
    case MISS_COLON => 12
    case MISS_COMMA_OR_CURLY_BRACKET => 13
    case USER_STOPPED => 14
  }

  /** parseErrorStr: the table lookup; the code must index the table. */
  function ParseErrorStr(code: int): (s: string)
    requires 0 <= code < |ErrStrTable|
    ensures s in ErrStrTable && s != []
  {
    ErrStrTable[code]
  }

  /** The enum values are 0..14 and pairwise distinct, so Code is a bijection onto the table. */
  lemma {:induction false} CodesDistinct(a: ParseError, b: ParseError)
    ensures Code(a) < |ErrStrTable| && Code(b) < |ErrStrTable|
    ensures Code(a) == Code(b) <==> a == b
  {
  }

  /** Every table index is the code of exactly the code stored there. */
  lemma {:induction false} EveryIndexIsACode(i: nat)
    requires i < |AllCodes|
    ensures Code(AllCodes[i]) == i
  {
  }

  /** Looking up a code's enum value in the table yields that code's own message. */
  lemma {:induction false} MessageOfCode(e: ParseError)
    ensures 0 <= Code(e) < |ErrStrTable| && ParseErrorStr(Code(e)) == Message(e)
  {
  }

  /** The exception object: stores its code; what() is the code's message. */
  datatype Exception = Exception(code: ParseError) {
    function Err(): (e: ParseError)
      ensures Exception(e) == this
    {
      code
    }

    function What(): (s: string)
      ensures s == Message(code)
    {
      ParseErrorStr(Code(code))
    }
  }
}

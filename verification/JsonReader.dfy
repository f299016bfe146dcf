/**
 A reader of JSON texts without white space (sections 2 to 7 of RFC 8259): what a text
 says, whoever wrote it. Objects are unordered, and of two members with one key the last
 counts.
 */
module JsonReader {
  import opened Common
  import opened JsonText

  /** A JSON value with unordered objects. */
  datatype Tree =
    | TNull
    | TBool(flag: bool)
    | TNumber(digits: Text)
    | TStr(text: Text)
    | TArray(items: seq<Tree>)
    | TObject(members: map<Text, Tree>)

  const COMMA: CodeUnit := 0x2C
  const COLON: CodeUnit := 0x3A
  const OPEN_BRACKET: CodeUnit := 0x5B
  const CLOSE_BRACKET: CodeUnit := 0x5D
  const OPEN_BRACE: CodeUnit := 0x7B
  const CLOSE_BRACE: CodeUnit := 0x7D
  const NULL_TEXT: Text := [0x6E, 0x75, 0x6C, 0x6C]
  const TRUE_TEXT: Text := [0x74, 0x72, 0x75, 0x65]
  const FALSE_TEXT: Text := [0x66, 0x61, 0x6C, 0x73, 0x65]

  function ToMap(ps: seq<(Text, Tree)>): map<Text, Tree> {
    if |ps| == 0 then map[] else ToMap(ps[..|ps| - 1])[ps[|ps| - 1].0 := ps[|ps| - 1].1]
  }

  predicate NumberUnit(c: CodeUnit) {
    0x30 <= c <= 0x39 || c == 0x2B || c == 0x2D || c == 0x2E || c == 0x45 || c == 0x65
  }

  /** How far the number at the front of a text reaches. */
  function NumberLength(x: Text): (n: nat)
    ensures n <= |x|
  {
    if |x| > 0 && NumberUnit(x[0]) then 1 + NumberLength(x[1..]) else 0
  }

  /** The value at the front of a text, and what follows it. */
  function ReadValue(x: Text): (r: Option<(Tree, Text)>)
    ensures r.Some? ==> |r.value.1| < |x|
    decreases |x|, 0
  {
    if |x| == 0 then None
    else if x[0] == OPEN_BRACKET then
      match ReadElements(x[1..])
      case None => None
      case Some((items, rest)) => Some((TArray(items), rest))
    else if x[0] == OPEN_BRACE then
      match ReadPairs(x[1..])
      case None => None
      case Some((pairs, rest)) => Some((TObject(ToMap(pairs)), rest))
    else if x[0] == QUOTE then
      var (text, rest) := Unescape(x[1..]);
      Some((TStr(text), rest))
    else if NULL_TEXT <= x then Some((TNull, x[|NULL_TEXT|..]))
    else if TRUE_TEXT <= x then Some((TBool(true), x[|TRUE_TEXT|..]))
    else if FALSE_TEXT <= x then Some((TBool(false), x[|FALSE_TEXT|..]))
    else
      var n := NumberLength(x);
      if n == 0 then None else Some((TNumber(x[..n]), x[n..]))
  }

  /** What follows an opening bracket. */
  function ReadElements(x: Text): (r: Option<(seq<Tree>, Text)>)
    ensures r.Some? ==> |r.value.1| < |x|
    decreases |x|, 2
  {
    if |x| > 0 && x[0] == CLOSE_BRACKET then Some(([], x[1..])) else ReadItems(x)
  }

  function ReadItems(x: Text): (r: Option<(seq<Tree>, Text)>)
    ensures r.Some? ==> |r.value.1| < |x|
    decreases |x|, 1
  {
    match ReadValue(x)
    case None => None
    case Some((item, rest)) =>
      if |rest| > 0 && rest[0] == CLOSE_BRACKET then Some(([item], rest[1..]))
      else if |rest| > 0 && rest[0] == COMMA then
        match ReadItems(rest[1..])
        case None => None
        case Some((items, last)) => Some(([item] + items, last))
      else None
  }

  /** What follows an opening brace. */
  function ReadPairs(x: Text): (r: Option<(seq<(Text, Tree)>, Text)>)
    ensures r.Some? ==> |r.value.1| < |x|
    decreases |x|, 2
  {
    if |x| > 0 && x[0] == CLOSE_BRACE then Some(([], x[1..])) else ReadMembers(x)
  }

  function ReadMembers(x: Text): (r: Option<(seq<(Text, Tree)>, Text)>)
    ensures r.Some? ==> |r.value.1| < |x|
    decreases |x|, 1
  {
    if |x| == 0 || x[0] != QUOTE then None
    else
      var (key, colon) := Unescape(x[1..]);
      if |colon| == 0 || colon[0] != COLON then None
      else
        match ReadValue(colon[1..])
        case None => None
        case Some((value, rest)) =>
          if |rest| > 0 && rest[0] == CLOSE_BRACE then Some(([(key, value)], rest[1..]))
          else if |rest| > 0 && rest[0] == COMMA then
            match ReadMembers(rest[1..])
            case None => None
            case Some((pairs, last)) => Some(([(key, value)] + pairs, last))
          else None
  }
}

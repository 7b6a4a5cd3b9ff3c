/** JSON values, the text that `JSON.stringify` writes for them, and a reader that takes them back out of it. */
module JsonText {
  import opened Sequences
  import opened Wrappers
  import opened Texts
  import opened Numerals

  /** Objects list their own properties in enumeration order; property names are distinct (`WellFormed`). */
  datatype Json =
    | Null
    | Bool(value: bool)
    | Number(number: Numeral)
    | Text(text: string)
    | List(items: seq<Json>)
    | Object(fields: seq<Field>)

  datatype Field = Field(name: string, json: Json)

  // ---------------------------------------------------------------------------
  // Serialisation

  function HexDigit(d: nat): char
    requires d < 16
  {
    if d < 10 then '0' + d as char else 'a' + (d - 10) as char
  }

  function EscapeChar(c: char): string {
    if c == '\"' then "\\\""
    else if c == '\\' then "\\\\"
    else if c == 8 as char then "\\b"
    else if c == 12 as char then "\\f"
    else if c == '\n' then "\\n"
    else if c == '\r' then "\\r"
    else if c == '\t' then "\\t"
    else if (c as int) < 32 then "\\u00" + [HexDigit(c as int / 16), HexDigit(c as int % 16)]
    else [c]
  }

  /** The characters of a string literal up to and with its closing quote, followed by `rest`. */
  function WriteChars(text: string, rest: string): string {
    if text == "" then "\"" + rest else EscapeChar(text[0]) + WriteChars(text[1..], rest)
  }

  /** `JSON.stringify`, put in front of `rest`. */
  function Write(v: Json, rest: string): string
    decreases v, 1
  {
    match v
    case Null => "null" + rest
    case Bool(value) => (if value then "true" else "false") + rest
    case Number(number) => NumeralText(number) + rest
    case Text(text) => "\"" + WriteChars(text, rest)
    case List(items) =>
      if items == [] then "[]" + rest else "[" + Write(items[0], WriteItems(items[1..], rest))
    case Object(fields) =>
      if fields == [] then "{}" + rest else "{" + WriteField(fields[0], WriteFields(fields[1..], rest))
  }

  function WriteItems(items: seq<Json>, rest: string): string
    decreases items, 0
  {
    if items == [] then "]" + rest else "," + Write(items[0], WriteItems(items[1..], rest))
  }

  function WriteField(field: Field, rest: string): string
    decreases field, 2
  {
    "\"" + WriteChars(field.name, ":" + Write(field.json, rest))
  }

  function WriteFields(fields: seq<Field>, rest: string): string
    decreases fields, 0
  {
    if fields == [] then "}" + rest else "," + WriteField(fields[0], WriteFields(fields[1..], rest))
  }

  // ---------------------------------------------------------------------------
  // Reading, by the grammar of RFC 8259, without blanks between the tokens

  predicate StartsWith(s: string, token: string) {
    |token| <= |s| && s[..|token|] == token
  }

  function HexValue(c: char): Option<nat> {
    if '0' <= c <= '9' then Some((c - '0') as nat)
    else if 'a' <= c <= 'f' then Some((c - 'a') as nat + 10)
    else if 'A' <= c <= 'F' then Some((c - 'A') as nat + 10)
    else None
  }

  function HexFour(s: string): Option<nat>
    requires |s| == 4
  {
    match (HexValue(s[0]), HexValue(s[1]), HexValue(s[2]), HexValue(s[3]))
    case (Some(a), Some(b), Some(c), Some(d)) => Some(((a * 16 + b) * 16 + c) * 16 + d)
    case _ => None
  }

  /** The escapes of two characters, of section 7. */
  function ShortEscape(c: char): Option<char> {
    match c
    case '\"' => Some('\"')
    case '\\' => Some('\\')
    case '/' => Some('/')
    case 'b' => Some(8 as char)
    case 'f' => Some(12 as char)
    case 'n' => Some('\n')
    case 'r' => Some('\r')
    case 't' => Some('\t')
    case _ => None
  }

  /** One character of a string, and the text after it. Escaped surrogates are not read. */
  function ReadCharacter(s: string): (read: Option<(char, string)>)
    requires s != ""
    ensures read.Some? ==> |read.value.1| < |s|
  {
    if (s[0] as int) < 32 || s[0] == '\"' then None
    else if s[0] != '\\' then Some((s[0], s[1..]))
    else if |s| >= 6 && s[1] == 'u' then
      match HexFour(s[2..6])
      case Some(code) => if code < 0xd800 || 0xe000 <= code < 0x1_0000 then Some((code as char, s[6..])) else None
      case None => None
    else if |s| >= 2 then
      match ShortEscape(s[1])
      case Some(c) => Some((c, s[2..]))
      case None => None
    else None
  }

  /** The characters up to the closing quotation mark, and the text after it. */
  function ReadCharacters(s: string): (read: Option<(string, string)>)
    ensures read.Some? ==> |read.value.1| < |s|
    decreases |s|
  {
    if s == "" then None
    else if s[0] == '\"' then Some(("", s[1..]))
    else
      match ReadCharacter(s)
      case None => None
      case Some((c, rest)) =>
        match ReadCharacters(rest)
        case None => None
        case Some((more, after)) => Some(([c] + more, after))
  }

  function ReadNumber(s: string): (read: Option<(Json, string)>)
    ensures read.Some? ==> |read.value.1| < |s|
  {
    match ReadNumeral(s)
    case None => None
    case Some((number, after)) => Some((Number(number), after))
  }

  /** The value at the start of a text, and the rest of the text. */
  function ReadValue(s: string): (read: Option<(Json, string)>)
    ensures read.Some? ==> |read.value.1| < |s|
    decreases |s|, 0
  {
    if StartsWith(s, "null") then Some((Null, s[4..]))
    else if StartsWith(s, "true") then Some((Bool(true), s[4..]))
    else if StartsWith(s, "false") then Some((Bool(false), s[5..]))
    else if StartsWith(s, "\"") then
      match ReadCharacters(s[1..])
      case None => None
      case Some((text, after)) => Some((Text(text), after))
    else if StartsWith(s, "[") then ReadList(s[1..])
    else if StartsWith(s, "{") then ReadObject(s[1..])
    else ReadNumber(s)
  }

  /** The values up to the closing bracket. */
  function ReadList(s: string): (read: Option<(Json, string)>)
    ensures read.Some? ==> |read.value.1| < |s|
    decreases |s|, 2
  {
    if StartsWith(s, "]") then Some((List([]), s[1..]))
    else
      match ReadItems(s)
      case None => None
      case Some((items, after)) => Some((List(items), after))
  }

  /** The fields up to the closing brace. */
  function ReadObject(s: string): (read: Option<(Json, string)>)
    ensures read.Some? ==> |read.value.1| < |s|
    decreases |s|, 3
  {
    if StartsWith(s, "}") then Some((Object([]), s[1..]))
    else
      match ReadFields(s)
      case None => None
      case Some((fields, after)) => Some((Object(fields), after))
  }

  /** One or more values with commas between them, up to the closing bracket. */
  function ReadItems(s: string): (read: Option<(seq<Json>, string)>)
    ensures read.Some? ==> |read.value.1| < |s|
    decreases |s|, 1
  {
    match ReadValue(s)
    case None => None
    case Some((item, after)) =>
      if StartsWith(after, "]") then Some(([item], after[1..]))
      else if StartsWith(after, ",") then
        match ReadItems(after[1..])
        case None => None
        case Some((items, after)) => Some(([item] + items, after))
      else None
  }

  /** A name, a colon and a value. */
  function ReadField(s: string): (read: Option<(Field, string)>)
    ensures read.Some? ==> |read.value.1| < |s|
    decreases |s|, 1
  {
    if !StartsWith(s, "\"") then None
    else
      match ReadCharacters(s[1..])
      case None => None
      case Some((name, after)) =>
        if !StartsWith(after, ":") then None
        else
          match ReadValue(after[1..])
          case None => None
          case Some((json, after)) => Some((Field(name, json), after))
  }

  /** One or more fields with commas between them, up to the closing brace. */
  function ReadFields(s: string): (read: Option<(seq<Field>, string)>)
    ensures read.Some? ==> |read.value.1| < |s|
    decreases |s|, 2
  {
    match ReadField(s)
    case None => None
    case Some((field, after)) =>
      if StartsWith(after, "}") then Some(([field], after[1..]))
      else if StartsWith(after, ",") then
        match ReadFields(after[1..])
        case None => None
        case Some((fields, after)) => Some(([field] + fields, after))
      else None
  }

  // ---------------------------------------------------------------------------
  // What is written is read back

  predicate Stops(rest: string) {
    EndsThere(rest, InNumeral)
  }

  lemma EscapeReads(c: char, rest: string)
    ensures ReadCharacter(EscapeChar(c) + rest) == Some((c, rest))
    ensures (EscapeChar(c) + rest)[0] != '\"'
  {
    var escape, s := EscapeChar(c), EscapeChar(c) + rest;
    assert s[|escape|..] == rest;
    if |escape| == 6 {
      assert s[2..6] == ['0', '0', HexDigit(c as int / 16), HexDigit(c as int % 16)];
    }
  }

  /** Any text that is read as this one character has at least the length of its escape, so only what must be escaped
      is, and by two characters where two suffice. Hexadecimal digits are in lower case. */
  lemma EscapesAreShortest(c: char, s: string, rest: string)
    requires s != "" && ReadCharacter(s + rest) == Some((c, rest))
    ensures |EscapeChar(c)| <= |s|
    ensures |EscapeChar(c)| == 6 ==> forall i :: 0 <= i < 6 ==> !('A' <= EscapeChar(c)[i] <= 'F')
  {
    var escape := EscapeChar(c);
    var taken := if s[0] != '\\' then 1 else if |s + rest| >= 6 && (s + rest)[1] == 'u' then 6 else 2;
    assert |s + rest| - taken == |rest|;
    if taken == 2 {
      assert ShortEscape((s + rest)[1]) == Some(c);
    }
  }

  lemma {:induction false} CharsRead(text: string, rest: string)
    ensures ReadCharacters(WriteChars(text, rest)) == Some((text, rest))
  {
    if text == "" {
      assert ("\"" + rest)[1..] == rest;
    } else {
      EscapeReads(text[0], WriteChars(text[1..], rest));
      CharsRead(text[1..], rest);
      assert [text[0]] + text[1..] == text;
    }
  }

  /** The kind of a value shows in its first character. */
  lemma FirstCharacter(v: Json, s: string)
    ensures Write(v, s) != ""
    ensures var c := Write(v, s)[0];
            match v
            case Null => c == 'n'
            case Bool(value) => c == (if value then 't' else 'f')
            case Number(_) => IsDigit(c) || c == '-'
            case Text(_) => c == '\"'
            case List(_) => c == '['
            case Object(_) => c == '{'
  {
    if v.Number? {
      NumeralStarts(v.number);
    }
  }

  lemma Behind(token: string, rest: string)
    ensures StartsWith(token + rest, token) && (token + rest)[|token|..] == rest
  {
  }

  /** A token that begins with another character is not there. */
  lemma NotThere(s: string, token: string)
    requires s != "" && token != "" && s[0] != token[0]
    ensures !StartsWith(s, token)
  {
  }

  lemma NoOtherToken(s: string)
    requires s != "" && (IsDigit(s[0]) || s[0] == '-')
    ensures ReadValue(s) == ReadNumber(s)
  {
    NotThere(s, "null");
    NotThere(s, "true");
    NotThere(s, "false");
    NotThere(s, "\"");
    NotThere(s, "[");
    NotThere(s, "{");
  }

  lemma NumberReads(number: Numeral, rest: string)
    requires Stops(rest)
    ensures ReadValue(Write(Number(number), rest)) == Some((Number(number), rest))
  {
    NumeralReads(number, rest);
    FirstCharacter(Number(number), rest);
    NoOtherToken(Write(Number(number), rest));
  }

  lemma LiteralsRead(rest: string)
    ensures ReadValue("null" + rest) == Some((Null, rest))
    ensures ReadValue("true" + rest) == Some((Bool(true), rest))
    ensures ReadValue("false" + rest) == Some((Bool(false), rest))
  {
    Behind("null", rest);
    Behind("true", rest);
    NotThere("true" + rest, "null");
    Behind("false", rest);
    NotThere("false" + rest, "null");
    NotThere("false" + rest, "true");
  }

  /** A bracket or a brace leads to the reader of lists or objects. */
  lemma OpeningReads(s: string)
    ensures ReadValue("[" + s) == ReadList(s) && ReadValue("{" + s) == ReadObject(s)
  {
    var bracket, brace := "[" + s, "{" + s;
    NotThere(bracket, "null");
    NotThere(bracket, "true");
    NotThere(bracket, "false");
    NotThere(bracket, "\"");
    NotThere(brace, "null");
    NotThere(brace, "true");
    NotThere(brace, "false");
    NotThere(brace, "\"");
    NotThere(brace, "[");
    Behind("[", s);
    Behind("{", s);
  }

  lemma TwoCharacters(c: char, d: char, rest: string)
    ensures [c, d] + rest == [c] + ([d] + rest)
  {
  }

  lemma EmptyListReads(rest: string)
    ensures ReadValue("[]" + rest) == Some((List([]), rest))
  {
    TwoCharacters('[', ']', rest);
    OpeningReads("]" + rest);
    Behind("]", rest);
  }

  lemma EmptyObjectReads(rest: string)
    ensures ReadValue("{}" + rest) == Some((Object([]), rest))
  {
    TwoCharacters('{', '}', rest);
    OpeningReads("}" + rest);
    Behind("}", rest);
  }

  lemma TextReads(text: string, rest: string)
    ensures ReadValue("\"" + WriteChars(text, rest)) == Some((Text(text), rest))
  {
    var s := "\"" + WriteChars(text, rest);
    NotThere(s, "null");
    NotThere(s, "true");
    NotThere(s, "false");
    Behind("\"", WriteChars(text, rest));
    CharsRead(text, rest);
  }

  lemma OpensList(s: string, items: seq<Json>, rest: string)
    requires s != "" && s[0] != ']' && ReadItems(s) == Some((items, rest))
    ensures ReadValue("[" + s) == Some((List(items), rest))
  {
    OpeningReads(s);
    NotThere(s, "]");
  }

  lemma OpensObject(s: string, fields: seq<Field>, rest: string)
    requires s != "" && s[0] != '}' && ReadFields(s) == Some((fields, rest))
    ensures ReadValue("{" + s) == Some((Object(fields), rest))
  {
    OpeningReads(s);
    NotThere(s, "}");
  }

  /** A reader of JSON takes the written value back, and stops behind it. */
  lemma {:induction false} ValueReads(v: Json, rest: string)
    requires Stops(rest)
    ensures ReadValue(Write(v, rest)) == Some((v, rest))
    decreases v, 1
  {
    match v
    case Null => LiteralsRead(rest);
    case Bool(value) => LiteralsRead(rest);
    case Number(number) => NumberReads(number, rest);
    case Text(text) => TextReads(text, rest);
    case List(items) => ListReads(items, rest);
    case Object(fields) => ObjectReads(fields, rest);
  }

  lemma ListReads(items: seq<Json>, rest: string)
    ensures ReadValue(Write(List(items), rest)) == Some((List(items), rest))
    decreases items, 3
  {
    if items == [] {
      EmptyListReads(rest);
    } else {
      var s := Write(items[0], WriteItems(items[1..], rest));
      FirstCharacter(items[0], WriteItems(items[1..], rest));
      ItemsRead(items, rest);
      OpensList(s, items, rest);
    }
  }

  lemma ObjectReads(fields: seq<Field>, rest: string)
    ensures ReadValue(Write(Object(fields), rest)) == Some((Object(fields), rest))
    decreases fields, 3
  {
    if fields == [] {
      EmptyObjectReads(rest);
    } else {
      var s := WriteField(fields[0], WriteFields(fields[1..], rest));
      FieldsRead(fields, rest);
      OpensObject(s, fields, rest);
    }
  }

  lemma LastItem(s: string, item: Json, rest: string)
    requires ReadValue(s) == Some((item, "]" + rest))
    ensures ReadItems(s) == Some(([item], rest))
  {
    Behind("]", rest);
  }

  lemma NextItem(s: string, item: Json, next: string, items: seq<Json>, rest: string)
    requires ReadValue(s) == Some((item, "," + next)) && ReadItems(next) == Some((items, rest))
    ensures ReadItems(s) == Some(([item] + items, rest))
  {
    Behind(",", next);
  }

  lemma {:induction false} ItemsRead(items: seq<Json>, rest: string)
    requires items != []
    ensures ReadItems(Write(items[0], WriteItems(items[1..], rest))) == Some((items, rest))
    decreases items, 0
  {
    var others := items[1..];
    var s := Write(items[0], WriteItems(others, rest));
    ValueReads(items[0], WriteItems(others, rest));
    HeadAndTail(items);
    if others == [] {
      LastItem(s, items[0], rest);
      assert items == [items[0]];
    } else {
      ItemsRead(others, rest);
      NextItem(s, items[0], Write(others[0], WriteItems(others[1..], rest)), others, rest);
    }
  }

  lemma FieldReads(field: Field, rest: string)
    requires Stops(rest)
    ensures ReadField(WriteField(field, rest)) == Some((field, rest))
    decreases field, 2
  {
    Behind("\"", WriteChars(field.name, ":" + Write(field.json, rest)));
    CharsRead(field.name, ":" + Write(field.json, rest));
    Behind(":", Write(field.json, rest));
    ValueReads(field.json, rest);
  }

  lemma LastField(s: string, field: Field, rest: string)
    requires ReadField(s) == Some((field, "}" + rest))
    ensures ReadFields(s) == Some(([field], rest))
  {
    Behind("}", rest);
  }

  lemma NextField(s: string, field: Field, next: string, fields: seq<Field>, rest: string)
    requires ReadField(s) == Some((field, "," + next)) && ReadFields(next) == Some((fields, rest))
    ensures ReadFields(s) == Some(([field] + fields, rest))
  {
    Behind(",", next);
  }

  lemma {:induction false} FieldsRead(fields: seq<Field>, rest: string)
    requires fields != []
    ensures ReadFields(WriteField(fields[0], WriteFields(fields[1..], rest))) == Some((fields, rest))
    decreases fields, 0
  {
    var others := fields[1..];
    var s := WriteField(fields[0], WriteFields(others, rest));
    FieldReads(fields[0], WriteFields(others, rest));
    HeadAndTail(fields);
    if others == [] {
      LastField(s, fields[0], rest);
      assert fields == [fields[0]];
    } else {
      FieldsRead(others, rest);
      NextField(s, fields[0], WriteField(others[0], WriteFields(others[1..], rest)), others, rest);
    }
  }

  /** The text determines the value and where it ends. */
  lemma TextDetermines(v: Json, s: string, w: Json, t: string)
    requires Write(v, s) == Write(w, t) && Stops(s) && Stops(t)
    ensures v == w && s == t
  {
    ValueReads(v, s);
    ValueReads(w, t);
  }
}

/** A reader for canonical JSON text, and the proof that it inverts the printer. */
module CanonicalJsonReading {
  import opened CanonicalJson
  import opened Characters
  import opened Decimals
  import opened TextOrder
  import opened Wrappers

  // --- characters, strings and numbers --------------------------------------------

  function HexValue(c: char): Option<nat> {
    if '0' <= c <= '9' then Some(c as int - '0' as int)
    else if 'a' <= c <= 'f' then Some(c as int - 'a' as int + 10)
    else None
  }

  function FromHex(s: string): Option<char>
    requires |s| == 4
  {
    if HexValue(s[0]).Some? && HexValue(s[1]).Some? && HexValue(s[2]).Some? && HexValue(s[3]).Some? then
      var n := HexValue(s[0]).value * 0x1000 + HexValue(s[1]).value * 0x100
               + HexValue(s[2]).value * 0x10 + HexValue(s[3]).value;
      if n < 0xD800 then Some(n as char) else None
    else None
  }

  /** What a backslash and this letter stand for. */
  function Unescape(c: char): Option<char> {
    if c == '"' || c == '\\' then Some(c)
    else if c == 'b' then Some(8 as char)
    else if c == 't' then Some(9 as char)
    else if c == 'n' then Some(10 as char)
    else if c == 'f' then Some(12 as char)
    else if c == 'r' then Some(13 as char)
    else None
  }

  /** Reads one character of a string literal. */
  function ReadChar(s: string): (r: Option<Read<char>>)
    ensures r.Some? ==> |r.value.rest| < |s|
  {
    if s == [] then None
    else if s[0] != '\\' then Some(Read(s[0], s[1..]))
    else if |s| < 2 then None
    else if s[1] == 'u' then
      if |s| >= 6 && FromHex(s[2..6]).Some? then Some(Read(FromHex(s[2..6]).value, s[6..])) else None
    else if Unescape(s[1]).Some? then Some(Read(Unescape(s[1]).value, s[2..]))
    else None
  }

  /** Reads up to and including the closing quote. */
  function ReadString(s: string): (r: Option<Read<string>>)
    ensures r.Some? ==> |r.value.rest| < |s|
    decreases |s|
  {
    if s == [] then None
    else if s[0] == '"' then Some(Read([], s[1..]))
    else
      var c := ReadChar(s);
      if c.None? then None
      else
        var tail := ReadString(c.value.rest);
        if tail.None? then None else Some(Read([c.value.value] + tail.value.value, tail.value.rest))
  }

  // --- values ---------------------------------------------------------------------

  function ReadWord(s: string, word: string, v: Doc): (r: Option<Read<Doc>>)
    requires word != []
    ensures r.Some? ==> |r.value.rest| < |s|
  {
    if word <= s then Some(Read(v, s[|word|..])) else None
  }

  function ReadNumber(s: string): (r: Option<Read<Doc>>)
    ensures r.Some? ==> |r.value.rest| < |s|
  {
    if s == [] then None
    else if IsDigit(s[0]) then
      var n := ReadDigits(s[1..], s[0] as int - '0' as int);
      Some(Read(Int(n.value), n.rest))
    else if s[0] == '-' && |s| > 1 && IsDigit(s[1]) then
      var n := ReadDigits(s[1..], 0);
      Some(Read(Int(0 - n.value), n.rest))
    else None
  }

  function ReadValue(s: string): (r: Option<Read<Doc>>)
    ensures r.Some? ==> |r.value.rest| < |s|
    decreases |s|, 0
  {
    if s == [] then None
    else if s[0] == 'n' then ReadWord(s, "null", Null)
    else if s[0] == 't' then ReadWord(s, "true", Bool(true))
    else if s[0] == 'f' then ReadWord(s, "false", Bool(false))
    else if s[0] == '"' then
      var text := ReadString(s[1..]);
      if text.None? then None else Some(Read(Str(text.value.value), text.value.rest))
    else if s[0] == '[' then
      if |s| > 1 && s[1] == ']' then Some(Read(Arr(NoDocs), s[2..]))
      else
        var items := ReadItems(s[1..]);
        if items.None? then None else Some(Read(Arr(items.value.value), items.value.rest))
    else if s[0] == '{' then
      if |s| > 1 && s[1] == '}' then Some(Read(Obj(NoFields), s[2..]))
      else
        var fields := ReadFields(s[1..]);
        if fields.None? then None else Some(Read(Obj(fields.value.value), fields.value.rest))
    else ReadNumber(s)
  }

  /** Reads one or more items, up to and including the closing bracket. */
  function ReadItems(s: string): (r: Option<Read<Docs>>)
    ensures r.Some? ==> |r.value.rest| < |s|
    decreases |s|, 1
  {
    var head := ReadValue(s);
    if head.None? || head.value.rest == [] then None
    else if head.value.rest[0] == ']' then Some(Read(AndDoc(head.value.value, NoDocs), head.value.rest[1..]))
    else if head.value.rest[0] != ',' then None
    else
      var tail := ReadItems(head.value.rest[1..]);
      if tail.None? then None else Some(Read(AndDoc(head.value.value, tail.value.value), tail.value.rest))
  }

  /** Reads one or more fields, up to and including the closing brace. */
  function ReadFields(s: string): (r: Option<Read<Fields>>)
    ensures r.Some? ==> |r.value.rest| < |s|
    decreases |s|, 1
  {
    if s == [] || s[0] != '"' then None
    else
      var key := ReadString(s[1..]);
      if key.None? || key.value.rest == [] || key.value.rest[0] != ':' then None
      else
        var value := ReadValue(key.value.rest[1..]);
        if value.None? || value.value.rest == [] then None
        else if value.value.rest[0] == '}' then
          Some(Read(AndField(key.value.value, value.value.value, NoFields), value.value.rest[1..]))
        else if value.value.rest[0] != ',' then None
        else
          var rest := ReadFields(value.value.rest[1..]);
          if rest.None? then None
          else Some(Read(AndField(key.value.value, value.value.value, rest.value.value), rest.value.rest))
  }

  // --- reading what was printed ---------------------------------------------------

  lemma ReadEscape(c: char, rest: string)
    ensures ReadChar(Escape(c) + rest) == Some(Read(c, rest))
    ensures (Escape(c) + rest)[0] != '"'
  {
    var s := Escape(c) + rest;
    var n := c as int;
    if n < 32 && n != 8 && n != 9 && n != 10 && n != 12 && n != 13 {
      assert s[2..6] == ['0', '0', Digit(n / 16), Digit(n % 16)];
      assert s[6..] == rest;
      assert HexValue(Digit(n / 16)) == Some(n / 16) && HexValue(Digit(n % 16)) == Some(n % 16);
      assert FromHex(s[2..6]) == Some(c);
    } else if |Escape(c)| == 2 {
      assert s[2..] == rest;
    } else {
      assert s[1..] == rest;
    }
  }

  lemma {:induction false} ReadEscaped(text: string, rest: string)
    ensures ReadString(Escaped(text) + ['"'] + rest) == Some(Read(text, rest))
  {
    hide Escape, ReadChar;
    if text == [] {
      assert Escaped(text) + ['"'] + rest == ['"'] + rest;
    } else {
      var tail := Escaped(text[1..]) + ['"'] + rest;
      ReadEscaped(text[1..], rest);
      assert Escaped(text) + ['"'] + rest == Escape(text[0]) + tail;
      ReadEscape(text[0], tail);
      assert text == [text[0]] + text[1..];
    }
  }

  lemma ReadDecimal(n: int, rest: string)
    requires Ends(rest)
    ensures ReadNumber(Decimal(n) + rest) == Some(Read(Int(n), rest))
    ensures (Decimal(n) + rest)[0] == '-' || IsDigit((Decimal(n) + rest)[0])
  {
    hide Digits, ReadDigits;
    if n < 0 {
      ReadDecimalDigits(-n, rest);
      assert (Decimal(n) + rest)[1..] == Digits(-n) + rest;
    } else {
      ReadDecimalDigits(n, rest);
      FirstDigit(Digits(n) + rest);
    }
    NoMoreDigits(rest, if n < 0 then -n else n);
  }

  // --- the printer without sorting ------------------------------------------------

  /** Prints a value with the fields of its objects in the order in which they stand. */
  function Plain(v: Doc): string {
    match v
    case Null => "null"
    case Bool(truth) => if truth then "true" else "false"
    case Int(number) => Decimal(number)
    case Str(text) => Quote(text)
    case Arr(items) => ['['] + PlainItems(items) + [']']
    case Obj(fields) => ['{'] + PlainFields(fields) + ['}']
  }

  function PlainItems(items: Docs): string {
    match items
    case NoDocs => []
    case AndDoc(head, tail) => Plain(head) + if tail.NoDocs? then [] else [','] + PlainItems(tail)
  }

  function PlainFields(f: Fields): string {
    match f
    case NoFields => []
    case AndField(key, value, rest) =>
      Quote(key) + [':'] + Plain(value) + if rest.NoFields? then [] else [','] + PlainFields(rest)
  }

  lemma PlainStarts(v: Doc)
    ensures Plain(v) != [] && Plain(v)[0] != ']' && Plain(v)[0] != '}'
  {
  }

  lemma ReadQuoted(key: string, rest: string)
    ensures var s := Quote(key) + rest;
            s != [] && s[0] == '"' && ReadString(s[1..]) == Some(Read(key, rest))
  {
    hide Escaped, ReadString;
    ReadEscaped(key, rest);
    assert (Quote(key) + rest)[1..] == Escaped(key) + ['"'] + rest;
  }

  lemma {:induction false} ReadPlain(v: Doc, rest: string)
    requires Ends(rest)
    ensures ReadValue(Plain(v) + rest) == Some(Read(v, rest))
    decreases v, 0
  {
    hide ReadString, ReadDigits, Quote, Decimal, ReadNumber, ReadItems, ReadFields;
    match v {
      case Null => assert (Plain(v) + rest)[4..] == rest;
      case Bool(truth) => assert (Plain(v) + rest)[if truth then 4 else 5..] == rest;
      case Int(n) => ReadDecimal(n, rest);
      case Str(text) =>
        ReadQuoted(text, rest);
      case Arr(items) => ReadPlainArr(items, rest);
      case Obj(fields) => ReadPlainObj(fields, rest);
    }
  }

  lemma {:induction false} ReadPlainArr(items: Docs, rest: string)
    ensures ReadValue(Plain(Arr(items)) + rest) == Some(Read(Arr(items), rest))
    decreases items, 2
  {
    hide ReadString, ReadNumber, ReadItems, ReadFields, ReadWord;
    var s := Plain(Arr(items)) + rest;
    if items.NoDocs? {
      assert s == ['[', ']'] + rest;
      assert s[2..] == rest;
    } else {
      ReadPlainItems(items, rest);
      PlainStarts(items.head);
      assert s == ['['] + (PlainItems(items) + [']'] + rest);
      assert s[1..] == PlainItems(items) + [']'] + rest;
    }
  }

  lemma {:induction false} ReadPlainItems(items: Docs, rest: string)
    requires items.AndDoc?
    ensures ReadItems(PlainItems(items) + [']'] + rest) == Some(Read(items, rest))
    decreases items, 1
  {
    hide ReadValue, Plain;
    var s := PlainItems(items) + [']'] + rest;
    if items.tail.NoDocs? {
      ReadPlain(items.head, [']'] + rest);
      assert s == Plain(items.head) + ([']'] + rest);
      assert ([']'] + rest)[1..] == rest;
    } else {
      var next := PlainItems(items.tail) + [']'] + rest;
      ReadPlain(items.head, [','] + next);
      ReadPlainItems(items.tail, rest);
      assert s == Plain(items.head) + ([','] + next);
      assert ([','] + next)[1..] == next;
    }
  }

  lemma {:induction false} ReadPlainObj(fields: Fields, rest: string)
    ensures ReadValue(Plain(Obj(fields)) + rest) == Some(Read(Obj(fields), rest))
    decreases fields, 2
  {
    hide ReadString, ReadNumber, ReadItems, ReadFields, ReadWord, Escaped;
    var s := Plain(Obj(fields)) + rest;
    if fields.NoFields? {
      assert s == ['{', '}'] + rest;
      assert s[2..] == rest;
    } else {
      ReadPlainFields(fields, rest);
      assert s == ['{'] + (PlainFields(fields) + ['}'] + rest);
      assert s[1..] == PlainFields(fields) + ['}'] + rest;
    }
  }

  lemma {:induction false} ReadPlainFields(f: Fields, rest: string)
    requires f.AndField?
    ensures ReadFields(PlainFields(f) + ['}'] + rest) == Some(Read(f, rest))
    decreases f, 1
  {
    hide ReadValue, ReadString, Plain, Quote;
    var s := PlainFields(f) + ['}'] + rest;
    var next := if f.rest.NoFields? then ['}'] + rest else [','] + (PlainFields(f.rest) + ['}'] + rest);
    var text := Plain(f.value) + next;
    assert s == Quote(f.key) + ([':'] + text);
    ReadQuoted(f.key, [':'] + text);
    assert ([':'] + text)[1..] == text;
    ReadPlain(f.value, next);
    if f.rest.NoFields? {
      assert next[1..] == rest;
    } else {
      ReadPlainFields(f.rest, rest);
      assert next[1..] == PlainFields(f.rest) + ['}'] + rest;
    }
  }

  // --- the canonical printer ------------------------------------------------------

  lemma {:induction false} InsertNormal(o: Order, key: string, value: Doc, f: Fields)
    ensures NormalFields(o, Insert(o, key, value, f)) == Insert(o, key, Normal(o, value), NormalFields(o, f))
  {
    hide Before, Normal;
    match f {
      case NoFields =>
      case AndField(_, _, rest) => InsertNormal(o, key, value, rest);
    }
  }

  lemma {:induction false} SortNormal(o: Order, f: Fields)
    ensures NormalFields(o, Sort(o, f)) == Sort(o, NormalFields(o, f))
  {
    hide Insert, Normal;
    match f {
      case NoFields =>
      case AndField(key, value, rest) =>
        SortNormal(o, rest);
        InsertNormal(o, key, value, Sort(o, rest));
    }
  }

  /** The canonical text is the plain text of the value with all objects in key order. */
  lemma {:induction false} CanonicalIsPlain(o: Order, v: Doc)
    ensures Canonical(o, v) == Plain(Normal(o, v))
    decreases Size(v)
  {
    hide Quote, Decimal, Sort;
    match v {
      case Arr(items) => CanonicalItemsArePlain(o, items);
      case Obj(fields) =>
        CanonicalFieldsArePlain(o, Sort(o, fields));
        SortNormal(o, fields);
      case _ =>
    }
  }

  lemma {:induction false} CanonicalItemsArePlain(o: Order, items: Docs)
    ensures CanonicalItems(o, items) == PlainItems(NormalDocs(o, items))
    decreases DocsSize(items)
  {
    hide Canonical, Plain, Normal;
    match items {
      case NoDocs =>
      case AndDoc(head, tail) =>
        CanonicalIsPlain(o, head);
        CanonicalItemsArePlain(o, tail);
    }
  }

  lemma {:induction false} CanonicalFieldsArePlain(o: Order, f: Fields)
    ensures CanonicalFields(o, f) == PlainFields(NormalFields(o, f))
    decreases FieldsSize(f)
  {
    hide Canonical, Plain, Normal, Quote;
    match f {
      case NoFields =>
      case AndField(_, value, rest) =>
        CanonicalIsPlain(o, value);
        CanonicalFieldsArePlain(o, rest);
    }
  }

  /**
   The canonical text can be read back, whatever follows it: the reader returns the value
   with its keys sorted, and the rest of the text.
   */
  lemma CanonicalIsReadable(o: Order, v: Doc, rest: string)
    requires Ends(rest)
    ensures ReadValue(Canonical(o, v) + rest) == Some(Read(Normal(o, v), rest))
  {
    hide Canonical, ReadValue;
    CanonicalIsPlain(o, v);
    ReadPlain(Normal(o, v), rest);
  }

  /** Equal texts come from values that are equal up to the order of keys. */
  lemma CanonicalIsInjective(o: Order, p: Order, v: Doc, w: Doc)
    ensures Canonical(o, v) == Canonical(p, w) <==> Normal(o, v) == Normal(p, w)
  {
    hide Canonical, ReadValue, Plain, Normal;
    CanonicalIsReadable(o, v, []);
    CanonicalIsReadable(p, w, []);
    CanonicalIsPlain(o, v);
    CanonicalIsPlain(p, w);
  }
}

/**
 The canonical JSON text that licence signatures cover, as printed by the desktop
 application (backend/app/desktop_license.py) and by the licence service
 (license-service/src/crypto.ts). Both sort the keys of every object; Python compares
 code points, JavaScript compares UTF-16 code units.
 */
module CanonicalJson {
  import opened Decimals
  import opened TextOrder
  import opened Wrappers

  /** A JSON value. An object keeps its fields in the order in which they were inserted. */
  datatype Doc =
    | Null
    | Bool(truth: bool)
    | Int(number: int)
    | Str(text: string)
    | Arr(items: Docs)
    | Obj(fields: Fields)

  datatype Docs = NoDocs | AndDoc(head: Doc, tail: Docs)

  datatype Fields = NoFields | AndField(key: string, value: Doc, rest: Fields)

  // --- objects --------------------------------------------------------------------

  function Find(f: Fields, k: string): Option<Doc> {
    match f
    case NoFields => None
    case AndField(key, value, rest) => if key == k then Some(value) else Find(rest, k)
  }

  predicate Has(f: Fields, k: string) {
    Find(f, k).Some?
  }

  function Size(v: Doc): nat {
    match v
    case Arr(items) => 1 + DocsSize(items)
    case Obj(fields) => 1 + FieldsSize(fields)
    case _ => 1
  }

  function DocsSize(items: Docs): nat {
    match items
    case NoDocs => 0
    case AndDoc(head, tail) => 1 + Size(head) + DocsSize(tail)
  }

  function FieldsSize(f: Fields): nat {
    match f
    case NoFields => 0
    case AndField(_, value, rest) => 1 + Size(value) + FieldsSize(rest)
  }

  /** The keys of every object are distinct, as they are in a dictionary. */
  predicate Proper(v: Doc) {
    match v
    case Arr(items) => ProperDocs(items)
    case Obj(fields) => ProperFields(fields)
    case _ => true
  }

  predicate ProperDocs(items: Docs) {
    match items
    case NoDocs => true
    case AndDoc(head, tail) => Proper(head) && ProperDocs(tail)
  }

  predicate ProperFields(f: Fields) {
    match f
    case NoFields => true
    case AndField(key, value, rest) => !Has(rest, key) && Proper(value) && ProperFields(rest)
  }

  function Insert(o: Order, key: string, value: Doc, f: Fields): (r: Fields)
    ensures FieldsSize(r) == 1 + Size(value) + FieldsSize(f)
  {
    match f
    case NoFields => AndField(key, value, NoFields)
    case AndField(k, v, rest) =>
      if Before(o, k, key) then AndField(k, v, Insert(o, key, value, rest)) else AndField(key, value, f)
  }

  function Sort(o: Order, f: Fields): (r: Fields)
    ensures FieldsSize(r) == FieldsSize(f)
  {
    match f
    case NoFields => NoFields
    case AndField(key, value, rest) => Insert(o, key, value, Sort(o, rest))
  }

  // --- the text -------------------------------------------------------------------

  /** One character of a string literal: section 7 of RFC 8259, as both printers escape it. */
  function Escape(c: char): string {
    if c == '"' then ['\\', '"']
    else if c == '\\' then ['\\', '\\']
    else if c as int == 8 then ['\\', 'b']
    else if c as int == 9 then ['\\', 't']
    else if c as int == 10 then ['\\', 'n']
    else if c as int == 12 then ['\\', 'f']
    else if c as int == 13 then ['\\', 'r']
    else if c as int < 32 then ['\\', 'u', '0', '0', Digit(c as int / 16), Digit(c as int % 16)]
    else [c]
  }

  function Escaped(s: string): string {
    if s == [] then [] else Escape(s[0]) + Escaped(s[1..])
  }

  function Quote(s: string): string {
    ['"'] + Escaped(s) + ['"']
  }

  /** `canonical_json` with the given key order. */
  function Canonical(o: Order, v: Doc): string
    decreases Size(v)
  {
    match v
    case Null => "null"
    case Bool(truth) => if truth then "true" else "false"
    case Int(number) => Decimal(number)
    case Str(text) => Quote(text)
    case Arr(items) => ['['] + CanonicalItems(o, items) + [']']
    case Obj(fields) => ['{'] + CanonicalFields(o, Sort(o, fields)) + ['}']
  }

  function CanonicalItems(o: Order, items: Docs): string
    decreases DocsSize(items)
  {
    match items
    case NoDocs => []
    case AndDoc(head, tail) => Canonical(o, head) + if tail.NoDocs? then [] else [','] + CanonicalItems(o, tail)
  }

  function CanonicalFields(o: Order, f: Fields): string
    decreases FieldsSize(f)
  {
    match f
    case NoFields => []
    case AndField(key, value, rest) =>
      Quote(key) + [':'] + Canonical(o, value) + if rest.NoFields? then [] else [','] + CanonicalFields(o, rest)
  }

  /** A value with the fields of every object in key order. */
  function Normal(o: Order, v: Doc): Doc {
    match v
    case Arr(items) => Arr(NormalDocs(o, items))
    case Obj(fields) => Obj(Sort(o, NormalFields(o, fields)))
    case _ => v
  }

  function NormalDocs(o: Order, items: Docs): Docs {
    match items
    case NoDocs => NoDocs
    case AndDoc(head, tail) => AndDoc(Normal(o, head), NormalDocs(o, tail))
  }

  function NormalFields(o: Order, f: Fields): Fields {
    match f
    case NoFields => NoFields
    case AndField(key, value, rest) => AndField(key, Normal(o, value), NormalFields(o, rest))
  }

  // --- the device proof -----------------------------------------------------------

  function Without(f: Fields, k: string): Fields {
    match f
    case NoFields => NoFields
    case AndField(key, value, rest) =>
      if key == k then Without(rest, k) else AndField(key, value, Without(rest, k))
  }

  const DEVICE_PREFIX := "SEARCHCAR-DEVICE-REQUEST-V1\n"
  const LEASE_PREFIX := "SEARCHCAR-LICENSE-LEASE-V1\n"

  /** The text a device signs: the request without its proof. */
  function DeviceProofPayload(o: Order, request: Fields): string {
    DEVICE_PREFIX + Canonical(o, Obj(Without(request, "proof")))
  }

  function LeasePayload(o: Order, payload: Doc): string {
    LEASE_PREFIX + Canonical(o, payload)
  }
}

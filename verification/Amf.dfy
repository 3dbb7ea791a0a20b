/**
 The AMF0 metadata of FLV output: the buffer that flv_meta_allocate makes and
 flv_meta_append_* fill, of src/flv.c, and a reader of AMF0 after sections 2.2, 2.3, 2.4,
 2.10 and 2.11 of its specification.
 */
module Amf {
  import opened Bytes
  import opened Wrappers

  // -------------------------------------------------------------------- reading AMF0

  /** A number is its eight bytes, the most significant first. */
  datatype Value = Number(bytes: seq<Byte>) | Bool(byte: Byte) | Text(text: seq<Byte>)

  datatype Entry = Entry(tag: seq<Byte>, value: Value)

  function U16(s: seq<Byte>): nat
    requires |s| >= 2
  {
    256 * (s[0] as int) + s[1] as int
  }

  /** A string: its length in two bytes, then its bytes; with what follows it. */
  function ReadString(s: seq<Byte>): Option<(seq<Byte>, seq<Byte>)> {
    if |s| < 2 || |s| - 2 < U16(s) then None
    else
      var n := U16(s);
      Some((s[2..2 + n], s[2 + n..]))
  }

  function ReadValue(s: seq<Byte>): Option<(Value, seq<Byte>)> {
    if s == [] then None
    else match s[0]
      case 0 => if |s| < 9 then None else Some((Number(s[1..9]), s[9..]))
      case 1 => if |s| < 2 then None else Some((Bool(s[1]), s[2..]))
      case 2 =>
        (match ReadString(s[1..])
         case None => None
         case Some((text, rest)) => Some((Text(text), rest)))
      case _ => None
  }

  /** Properties up to the object end marker: an empty name and the type 9. */
  function ReadProperties(s: seq<Byte>): Option<(seq<Entry>, seq<Byte>)>
    decreases |s|
  {
    if |s| >= 3 && s[0] == 0 && s[1] == 0 && s[2] == 9 then Some(([], s[3..]))
    else
      match ReadString(s)
      case None => None
      case Some((tag, rest)) =>
        match ReadValue(rest)
        case None => None
        case Some((value, more)) =>
          if |more| >= |s| then None
          else
            match ReadProperties(more)
            case None => None
            case Some((entries, after)) => Some(([Entry(tag, value)] + entries, after))
  }

  function OnMetaData(): (r: seq<Byte>)
    ensures |r| == 10
  {
    Bytes.Text("onMetaData")
  }

  /** The name of the event, and an array with its count and its properties, and no more. */
  function ReadMetaData(s: seq<Byte>): Option<(nat, seq<Entry>)> {
    if s == [] || s[0] != 2 then None
    else
      match ReadString(s[1..])
      case None => None
      case Some((name, rest)) =>
        if name != OnMetaData() || |rest| < 5 || rest[0] != 8 then None
        else
          var count := 0x1_0000 * U16(rest[1..]) + U16(rest[3..]);
          match ReadProperties(rest[5..])
          case None => None
          case Some((entries, after)) => if after == [] then Some((count, entries)) else None
  }

  // -------------------------------------------------------------------- writing it

  function UI16(v: nat): (r: seq<Byte>)
    ensures |r| == 2
  {
    [v / 256 % 256, v % 256]
  }

  function Length(v: Value): nat {
    match v
    case Number(_) => 8
    case Bool(_) => 1
    case Text(text) => 2 + |text|
  }

  function ValueBytes(v: Value): (r: seq<Byte>)
    ensures |r| == 1 + Length(v) || v.Number?
  {
    match v
    case Number(bytes) => [0] + bytes
    case Bool(byte) => [1, byte]
    case Text(text) => [2] + UI16(|text|) + text
  }

  function EntryBytes(e: Entry): seq<Byte> {
    UI16(|e.tag|) + e.tag + ValueBytes(e.value)
  }

  /** A name or text fits its 16-bit length, and a number has eight bytes. */
  predicate EntryOk(e: Entry) {
    |e.tag| < 0x1_0000
    && match e.value case Number(bytes) => |bytes| == 8 case Bool(_) => true case Text(text) => |text| < 0x1_0000
  }

  function Start(count: nat): (r: seq<Byte>)
    ensures |r| == 18
  {
    [2, 0, 10] + OnMetaData() + [8, 0, 0] + UI16(count)
  }

  const END: seq<Byte> := [0, 0, 9]

  function Body(entries: seq<Entry>): seq<Byte> {
    if entries == [] then [] else EntryBytes(entries[0]) + Body(entries[1..])
  }

  function Document(entries: seq<Entry>): seq<Byte> {
    Start(|entries|) + Body(entries) + END
  }

  lemma {:induction false} BodySnoc(entries: seq<Entry>, e: Entry)
    ensures Body(entries + [e]) == Body(entries) + EntryBytes(e)
  {
    if entries == [] {
      assert [e][1..] == [];
    } else {
      BodySnoc(entries[1..], e);
      assert (entries + [e])[1..] == entries[1..] + [e] && (entries + [e])[0] == entries[0];
      assert EntryBytes(entries[0]) + (Body(entries[1..]) + EntryBytes(e)) == Body(entries) + EntryBytes(e);
    }
  }

  lemma ReadStringOf(text: seq<Byte>, rest: seq<Byte>)
    requires |text| < 0x1_0000
    ensures ReadString(UI16(|text|) + text + rest) == Some((text, rest))
  {
    var s := UI16(|text|) + text + rest;
    assert U16(s) == |text|;
    assert s[2..2 + |text|] == text && s[2 + |text|..] == rest;
  }

  lemma ReadValueOf(e: Entry, rest: seq<Byte>)
    requires EntryOk(e)
    ensures ReadValue(ValueBytes(e.value) + rest) == Some((e.value, rest))
  {
    var s := ValueBytes(e.value) + rest;
    match e.value
    case Number(bytes) => assert s[1..9] == bytes && s[9..] == rest;
    case Bool(byte) => assert s[2..] == rest;
    case Text(text) =>
      ReadStringOf(text, rest);
      assert s[1..] == UI16(|text|) + text + rest;
  }

  lemma ReadProperty(s: seq<Byte>, e: Entry, rest: seq<Byte>, more: seq<Byte>)
    requires !(|s| >= 3 && s[0] == 0 && s[1] == 0 && s[2] == 9)
    requires ReadString(s) == Some((e.tag, rest)) && ReadValue(rest) == Some((e.value, more)) && |more| < |s|
    ensures
      ReadProperties(s) ==
        match ReadProperties(more)
        case None => None
        case Some((entries, after)) => Some(([e] + entries, after))
  {
    hide ReadString, ReadValue;
  }

  lemma NoneLeft(rest: seq<Byte>)
    ensures ReadProperties(Body([]) + END + rest) == Some(([], rest))
  {
    var s := Body([]) + END + rest;
    assert s == END + rest && s[3..] == rest;
  }

  lemma BodyFirst(entries: seq<Entry>, rest: seq<Byte>)
    requires entries != []
    ensures
      var e, more := entries[0], Body(entries[1..]) + END + rest;
      Body(entries) + END + rest == UI16(|e.tag|) + e.tag + (ValueBytes(e.value) + more)
  {
    hide UI16, ValueBytes;
  }

  lemma NotEnd(e: Entry, more: seq<Byte>)
    requires EntryOk(e)
    ensures
      var s := UI16(|e.tag|) + e.tag + (ValueBytes(e.value) + more);
      |s| > |more| + 2 && !(s[0] == 0 && s[1] == 0 && s[2] == 9)
  {
    var s := UI16(|e.tag|) + e.tag + (ValueBytes(e.value) + more);
    if s[0] == 0 && s[1] == 0 {
      assert |e.tag| == 0;
      assert s[2] == ValueBytes(e.value)[0];
    }
  }

  /** What is written is read back. */
  lemma {:induction false} ReadBody(entries: seq<Entry>, rest: seq<Byte>)
    requires forall i :: 0 <= i < |entries| ==> EntryOk(entries[i])
    ensures ReadProperties(Body(entries) + END + rest) == Some((entries, rest))
    decreases |entries|
  {
    hide ReadProperties, UI16, ReadString, ReadValue, Body, ValueBytes;
    if entries == [] {
      NoneLeft(rest);
    } else {
      var e, more := entries[0], Body(entries[1..]) + END + rest;
      ReadStringOf(e.tag, ValueBytes(e.value) + more);
      ReadValueOf(e, more);
      ReadBody(entries[1..], rest);
      NotEnd(e, more);
      ReadProperty(UI16(|e.tag|) + e.tag + (ValueBytes(e.value) + more), e, ValueBytes(e.value) + more, more);
      BodyFirst(entries, rest);
      assert [e] + entries[1..] == entries;
    }
  }

  lemma TenBytes()
    ensures UI16(10) == [0, 10]
  {
  }

  lemma Parts(name: seq<Byte>, count: seq<Byte>, body: seq<Byte>)
    ensures
      var s := [2, 0, 10] + name + [8, 0, 0] + count + body + END;
      s != [] && s[0] == 2 && s[1..] == [0, 10] + name + ([8, 0, 0] + count + (body + END))
  {
  }

  lemma NameFirst(entries: seq<Entry>, rest: seq<Byte>)
    requires rest == [8, 0, 0] + UI16(|entries|) + (Body(entries) + END)
    ensures |OnMetaData()| == 10
    ensures Document(entries) != [] && Document(entries)[0] == 2
    ensures Document(entries)[1..] == UI16(|OnMetaData()|) + OnMetaData() + rest
  {
    hide OnMetaData, Body;
    TenBytes();
    hide UI16;
    Parts(OnMetaData(), UI16(|entries|), Body(entries));
  }

  /** The whole of it: the count announced is that of the entries, which come back in order. */
  lemma RoundTrip(entries: seq<Entry>)
    requires |entries| < 0x1_0000 && forall i :: 0 <= i < |entries| ==> EntryOk(entries[i])
    ensures ReadMetaData(Document(entries)) == Some((|entries|, entries))
  {
    hide OnMetaData, ReadProperties, ReadString, Body;
    var s, n := Document(entries), |entries|;
    var rest := [8, 0, 0] + UI16(n) + (Body(entries) + END);
    NameFirst(entries, rest);
    ReadStringOf(OnMetaData(), rest);
    ReadBody(entries, []);
    assert Body(entries) + END + [] == Body(entries) + END;
    assert rest[5..] == Body(entries) + END;
    assert rest[1..][0] == 0 && rest[1..][1] == 0 && rest[3..][0] == n / 256 % 256 && rest[3..][1] == n % 256;
  }
}

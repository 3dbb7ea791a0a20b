/** The metadata buffer of src/flv.c, filled in place and grown when needed. */
module FlvMeta {
  import opened Amf
  import opened Bytes
  import opened Wrappers

  const HEAD: nat := 8  // sizeof (struct flvmeta), which is at the start of the buffer

  // -------------------------------------------------------------------- writing into a buffer

  function Put(s: seq<Byte>, at: nat, w: seq<Byte>): seq<Byte>
    requires at + |w| <= |s|
  {
    s[..at] + w + s[at + |w|..]
  }

  lemma PutOn(s: seq<Byte>, at: nat, v: seq<Byte>, w: seq<Byte>)
    requires at + |v| + |w| <= |s|
    ensures Put(Put(s, at, v), at + |v|, w) == Put(s, at, v + w)
  {
  }

  lemma PutNext(s: seq<Byte>, at: nat, w: seq<Byte>, k: nat)
    requires k < |w| && at + |w| <= |s|
    ensures Put(s, at, w[..k])[at + k := w[k]] == Put(s, at, w[..k + 1])
  {
  }

  method Write(a: array<Byte>, at: nat, w: seq<Byte>)
    requires at + |w| <= a.Length
    modifies a
    ensures a[..] == Put(old(a[..]), at, w)
  {
    forall i | 0 <= i < |w| {
      a[at + i] := w[i];
    }
  }

  /** flv_write_UI16 */
  method WriteUI16(a: array<Byte>, at: nat, v0: nat)
    requires at + 2 <= a.Length
    modifies a
    ensures a[..] == Put(old(a[..]), at, UI16(v0))
  {
    var v := v0;
    a[at + 1] := v % 256;
    v := v / 256;
    a[at] := v % 256;
  }

  function Reversed(s: seq<Byte>): (r: seq<Byte>)
    ensures |r| == |s| && forall i :: 0 <= i < |s| ==> r[i] == s[|s| - 1 - i]
  {
    seq(|s|, i requires 0 <= i < |s| => s[|s| - 1 - i])
  }

  /** How eight bytes, the most significant first, lie in memory. */
  function InMemory(bytes: seq<Byte>, littleEndian: bool): seq<Byte> {
    if littleEndian then Reversed(bytes) else bytes
  }

  /** flv_write_BE64: the bytes come out the same on either kind of machine. */
  method WriteBE64(a: array<Byte>, at: nat, bytes: seq<Byte>, littleEndian: bool)
    requires |bytes| == 8 && at + 8 <= a.Length
    modifies a
    ensures a[..] == Put(old(a[..]), at, bytes)
  {
    var val := InMemory(bytes, littleEndian);
    var src, diff := 0, 1;
    if littleEndian {
      diff := -1;
      src := src + 7;
    }
    var len := 8;
    while len > 0
      invariant 0 <= len <= 8 && src == (if littleEndian then len - 1 else 8 - len)
      invariant a[..] == Put(old(a[..]), at, bytes[..8 - len])
    {
      PutNext(old(a[..]), at, bytes, 8 - len);
      assert val[src] == bytes[8 - len];
      a[at + 8 - len] := val[src];
      src := src + diff;
      len := len - 1;
    }
    assert bytes[..8] == bytes;
  }

  // -------------------------------------------------------------------- the buffer

  method Realloc(a: array<Byte>, len: nat) returns (b: array<Byte>)
    requires len >= a.Length
    ensures fresh(b) && b.Length == len && b[..a.Length] == a[..]
  {
    b := new Byte[len](i requires 0 <= i < len reads a => if i < a.Length then a[i] else 0);
  }

  lemma InParts(e: Entry)
    ensures
      match e.value
      case Number(bytes) => EntryBytes(e) == UI16(|e.tag|) + e.tag + [0] + bytes
      case Bool(byte) => EntryBytes(e) == UI16(|e.tag|) + e.tag + [1] + [byte]
      case Text(text) => EntryBytes(e) == UI16(|e.tag|) + e.tag + [2] + (UI16(|text|) + text)
    ensures |EntryBytes(e)| == 3 + |e.tag| + Length(e.value) || e.value.Number?
  {
  }

  lemma AfterPut(s: seq<Byte>, pos: nat, w: seq<Byte>)
    requires HEAD <= pos && pos + |w| <= |s|
    ensures Put(s, pos, w)[HEAD..pos + |w|] == s[HEAD..pos] + w
    ensures Put(s, pos, w)[..pos] == s[..pos]
  {
  }

  lemma Joined(increased: seq<Byte>, pos: nat, start: seq<Byte>, body: seq<Byte>, more: seq<Byte>)
    requires HEAD <= pos <= |increased| && increased[..pos][HEAD..] == start + body
    ensures increased[HEAD..pos] + more == start + (body + more)
  {
    assert increased[HEAD..pos] == increased[..pos][HEAD..];
  }

  lemma CountSet(before: seq<Byte>, name: seq<Byte>, count: seq<Byte>, more: seq<Byte>, body: seq<Byte>)
    requires |name| == 16 && |count| == |more| == 2 && |before| >= HEAD && before[HEAD..] == name + count + body
    ensures Put(before, HEAD + 16, more)[HEAD..] == name + more + body
  {
  }

  lemma CountIncreased(before: seq<Byte>, increased: seq<Byte>, n: nat, body: seq<Byte>)
    requires |before| >= HEAD + 18 && before[HEAD..] == Start(n) + body
    requires increased == Put(before, HEAD + 16, UI16(n + 1))
    ensures increased[HEAD..] == Start(n + 1) + body
  {
    CountSet(before, [2, 0, 10] + OnMetaData() + [8, 0, 0], UI16(n), UI16(n + 1), body);
  }

  /** The count is written over, and the entry after what there was. */
  lemma Appended(entries: seq<Entry>, e: Entry, before: seq<Byte>, increased: seq<Byte>, after: seq<Byte>, pos: nat)
    requires HEAD + 18 <= pos == |before| && pos + |EntryBytes(e)| <= |increased|
    requires before[HEAD..] == Start(|entries|) + Body(entries)
    requires increased[..pos] == Put(before, HEAD + 16, UI16(|entries| + 1))
    requires after == Put(increased, pos, EntryBytes(e))
    ensures after[HEAD..pos + |EntryBytes(e)|] == Start(|entries| + 1) + Body(entries + [e])
  {
    hide EntryBytes, Body, UI16, Start;
    BodySnoc(entries, e);
    AfterPut(increased, pos, EntryBytes(e));
    CountIncreased(before, increased[..pos], |entries|, Body(entries));
    Joined(increased, pos, Start(|entries| + 1), Body(entries), EntryBytes(e));
  }

  /** As many blocks of 4096 bytes as are needed for more than `needed`. */
  predicate Grown(needed: nat, length: nat) {
    length % 4096 == 0 && length - 4096 <= needed < length
  }

  lemma BlocksOf4096(needed: nat)
    ensures Grown(needed, (needed / 4096 + 1) * 4096)
  {
  }

  class Metadata {
    var data: array<Byte>
    var metaPos: nat
    var arraylen: nat

    ghost var entries: seq<Entry>

    /** What has been written so far; there is always room for the end marker. */
    ghost predicate Valid()
      reads this, data
    {
      && metaPos + 3 <= data.Length < 0x1_0000
      && arraylen == |entries| && HEAD + 18 + 4 * |entries| <= metaPos
      && (forall i :: 0 <= i < |entries| ==> EntryOk(entries[i]))
      && data[HEAD..metaPos] == Start(|entries|) + Body(entries)
    }

    /** flv_meta_allocate; the program asks for 400 and 470. */
    constructor (len: nat)
      requires len < 0x1_0000 - 38
      ensures Valid() && entries == [] && fresh(data)
    {
      var a := new Byte[HEAD + len + 30](_ => 0);
      Write(a, HEAD, [2, 0, 10] + OnMetaData());
      Write(a, HEAD + 13, [8, 0, 0, 0, 0]);
      data, arraylen, metaPos, entries := a, 0, 18 + HEAD, [];
      new;
      assert data[HEAD..metaPos] == Start(0);
      assert Start(0) + Body([]) == Start(0);
    }

    /** What an entry takes. */
    function Needs(e: Entry): nat {
      2 + |e.tag| + 1 + Length(e.value)
    }

    /** An entry is refused if the buffer would have to grow and would grow too much, or cannot. */
    ghost predicate Refused(e: Entry, memory: bool)
      reads this
    {
      metaPos + Needs(e) + 3 > data.Length && (metaPos + Needs(e) + 3 > 16000 || !memory)
    }

    /** flv_meta_increase; `memory` says whether realloc succeeds. */
    method Increase(taglen: nat, valuelen: nat, memory: bool) returns (pos: int)
      requires metaPos + 3 <= data.Length < 0x1_0000 && HEAD + 18 <= metaPos
      modifies this`data, this`metaPos, this`arraylen, data
      ensures
        var needed := old(metaPos) + (2 + taglen + 1 + valuelen) + 3;
        pos == -1 <==> needed > old(data.Length) && (needed > 16000 || !memory)
      ensures
        pos == -1 ==>
          data == old(data) && data[..] == old(data[..]) && metaPos == old(metaPos) && arraylen == old(arraylen)
      ensures
        pos != -1 ==>
          && (data == old(data) || fresh(data))
          && pos == old(metaPos) && metaPos == old(metaPos) + (2 + taglen + 1 + valuelen)
          && (if metaPos + 3 <= old(data.Length) then data == old(data)
              else Grown(metaPos + 3, data.Length))
          && metaPos + 3 <= data.Length < 0x1_0000 && arraylen == old(arraylen) + 1
          && data[..pos] == Put(old(data[..metaPos]), HEAD + 16, UI16(arraylen))
    {
      hide Grown;
      var metaLen := 2 + taglen + 1 + valuelen;
      var targetLen := metaPos + metaLen + 3;
      while targetLen > data.Length
        invariant metaPos == old(metaPos) && arraylen == old(arraylen)
        invariant data == old(data) || (fresh(data) && targetLen <= data.Length < 0x1_0000)
        invariant data.Length >= old(data.Length) && data[..old(data.Length)] == old(data[..])
        invariant data != old(data) ==> old(data.Length) < targetLen <= 16000 && memory
        invariant data != old(data) ==> Grown(targetLen, data.Length)
        decreases targetLen - data.Length
      {
        if targetLen > 16000 {
          return -1;
        }
        var newLen := (targetLen / 4096 + 1) * 4096;
        BlocksOf4096(targetLen);
        if !memory {
          return -1;
        }
        var p := Realloc(data, newLen);
        data := p;
      }
      arraylen := arraylen + 1;
      ghost var before := data[..];
      WriteUI16(data, HEAD + 16, arraylen);
      pos := metaPos;
      assert data[..pos] == Put(before[..pos], HEAD + 16, UI16(arraylen));
      assert before[..pos] == old(data[..metaPos]);
      metaPos := metaPos + metaLen;
    }

    /** A two-byte length and as many bytes. */
    method WriteString(ptr: nat, text: seq<Byte>)
      requires ptr + 2 + |text| <= data.Length
      modifies data
      ensures data[..] == Put(old(data[..]), ptr, UI16(|text|) + text)
    {
      ghost var before := data[..];
      WriteUI16(data, ptr, |text|);
      Write(data, ptr + 2, text);
      PutOn(before, ptr, UI16(|text|), text);
    }

    /** The name of an entry and the type of its value; and where the value goes. */
    method WriteTag(pos: nat, tag: seq<Byte>, kind: Byte) returns (ptr: nat)
      requires pos + 2 + |tag| + 1 <= data.Length
      modifies data
      ensures data[..] == Put(old(data[..]), pos, UI16(|tag|) + tag + [kind]) && ptr == pos + 3 + |tag|
    {
      hide UI16, Put;
      ghost var before := data[..];
      WriteString(pos, tag);
      ptr := pos + 2 + |tag|;
      Write(data, ptr, [kind]);
      PutOn(before, pos, UI16(|tag|) + tag, [kind]);
      ptr := ptr + 1;
    }

    /** The bytes of the entry are in place. */
    ghost method Accept(e: Entry, before: seq<Byte>, increased: seq<Byte>, pos: nat)
      requires EntryOk(e) && (forall i :: 0 <= i < |entries| ==> EntryOk(entries[i]))
      requires HEAD + 18 + 4 * |entries| <= pos == |before|
      requires metaPos == pos + |EntryBytes(e)| && metaPos + 3 <= data.Length < 0x1_0000
      requires arraylen == |entries| + 1 && |increased| == data.Length
      requires before[HEAD..] == Start(|entries|) + Body(entries)
      requires increased[..pos] == Put(before, HEAD + 16, UI16(arraylen))
      requires data[..] == Put(increased, pos, EntryBytes(e))
      modifies this`entries
      ensures Valid() && entries == old(entries) + [e]
    {
      Appended(entries, e, before, increased, data[..], pos);
      entries := entries + [e];
    }

    /** flv_meta_append_bool */
    method AppendBool(tag: seq<Byte>, value: int, memory: bool) returns (ok: bool)
      requires Valid()
      modifies this, data
      ensures Valid() && ok == !old(Refused(Entry(tag, Bool(value % 256)), memory))
      ensures ok ==> entries == old(entries) + [Entry(tag, Bool(value % 256))]
      ensures
        !ok ==>
          && data == old(data) && data[..] == old(data[..])
          && metaPos == old(metaPos) && entries == old(entries)
    {
      hide Start, Body, UI16, EntryBytes, Put;
      ghost var e := Entry(tag, Bool(value % 256));
      ghost var before := data[..metaPos];
      var pos := Increase(|tag|, 1, memory);
      if pos < 0 {
        return false;
      }
      ghost var increased := data[..];
      var ptr := WriteTag(pos, tag, 1);
      Write(data, ptr, [value % 256]);
      PutOn(increased, pos, UI16(|tag|) + tag + [1], [value % 256]);
      InParts(e);
      Accept(e, before, increased, pos);
      ok := true;
    }

    /** flv_meta_append_number; the number is given by its bytes, the most significant first. */
    method AppendNumber(tag: seq<Byte>, bytes: seq<Byte>, littleEndian: bool, memory: bool) returns (ok: bool)
      requires Valid() && |bytes| == 8
      modifies this, data
      ensures Valid() && ok == !old(Refused(Entry(tag, Number(bytes)), memory))
      ensures ok ==> entries == old(entries) + [Entry(tag, Number(bytes))]
      ensures
        !ok ==>
          && data == old(data) && data[..] == old(data[..])
          && metaPos == old(metaPos) && entries == old(entries)
    {
      hide Start, Body, UI16, EntryBytes, Put;
      ghost var e := Entry(tag, Number(bytes));
      ghost var before := data[..metaPos];
      var pos := Increase(|tag|, 8, memory);
      if pos < 0 {
        return false;
      }
      ghost var increased := data[..];
      var ptr := WriteTag(pos, tag, 0);
      WriteBE64(data, ptr, bytes, littleEndian);
      PutOn(increased, pos, UI16(|tag|) + tag + [0], bytes);
      InParts(e);
      Accept(e, before, increased, pos);
      ok := true;
    }

    /** flv_meta_append_string */
    method AppendString(tag: seq<Byte>, value: seq<Byte>, memory: bool) returns (ok: bool)
      requires Valid()
      modifies this, data
      ensures Valid() && ok == !old(Refused(Entry(tag, Amf.Text(value)), memory))
      ensures ok ==> entries == old(entries) + [Entry(tag, Amf.Text(value))]
      ensures
        !ok ==>
          && data == old(data) && data[..] == old(data[..])
          && metaPos == old(metaPos) && entries == old(entries)
    {
      hide Start, Body, UI16, EntryBytes, Put;
      ghost var e := Entry(tag, Amf.Text(value));
      ghost var before := data[..metaPos];
      var pos := Increase(|tag|, |value| + 2, memory);
      if pos < 0 {
        return false;
      }
      ghost var increased := data[..];
      var ptr := WriteTag(pos, tag, 2);
      WriteString(ptr, value);
      PutOn(increased, pos, UI16(|tag|) + tag + [2], UI16(|value|) + value);
      InParts(e);
      Accept(e, before, increased, pos);
      ok := true;
    }

    /** flv_meta_append_end_marker: there is always room for it, and what is there can be read back. */
    method AppendEndMarker() returns (ok: bool)
      requires Valid()
      modifies this`metaPos, data
      ensures ok && metaPos == old(metaPos) + 3 <= data.Length && entries == old(entries)
      ensures data[HEAD..metaPos] == Document(entries)
      ensures ReadMetaData(data[HEAD..metaPos]) == Some((arraylen, entries))
    {
      hide Start, Body, EntryOk;
      if 3 + metaPos > data.Length {
        return false;
      }
      ghost var before := data[..];
      Write(data, metaPos, END);
      AfterPut(before, metaPos, END);
      metaPos := metaPos + 3;
      ok := true;
      RoundTrip(entries);
    }
  }
}

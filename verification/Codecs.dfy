/** The list of WhatsApp Business Account ids kept in a bot's metadata: ASCII digits as single bytes, delimited. */
module AccountList {
  type Byte = n: int | 0 <= n < 256 witness 0

  const OFFSET: int := 48
  const COLON: int := 58
  const DELIM: int := COLON - OFFSET

  function Lower(r: Byte): (b: Byte)
    ensures (b - (r - OFFSET)) % 256 == 0
  {
    (r - OFFSET) % 256
  }

  function Raise(b: Byte): Byte {
    (b + OFFSET) % 256
  }

  lemma RaiseLower(r: Byte)
    ensures Raise(Lower(r)) == r && (Lower(r) == DELIM <==> r == COLON)
  {
  }

  function Lowered(id: seq<Byte>): seq<Byte> {
    if id == [] then [] else [Lower(id[0])] + Lowered(id[1..])
  }

  function Delimited(data: seq<Byte>): seq<Byte> {
    if data != [] && data[|data| - 1] != DELIM then data + [DELIM] else data
  }

  function Packed(ids: seq<seq<Byte>>): seq<Byte> {
    if ids == [] then [] else Delimited(Packed(ids[..|ids| - 1])) + Lowered(ids[|ids| - 1])
  }

  function Grab(ascii: seq<Byte>): seq<seq<Byte>> {
    if ascii == [] then [] else [ascii]
  }

  /** The ids in the data, when `ascii` is read of the first. */
  function Unpacked(data: seq<Byte>, ascii: seq<Byte>): seq<seq<Byte>>
    decreases |data|
  {
    if data == [] then Grab(ascii)
    else if data[0] == DELIM then Grab(ascii) + Unpacked(data[1..], [])
    else Unpacked(data[1..], ascii + [Raise(data[0])])
  }

  method BackupAccounts(ids: seq<seq<Byte>>) returns (data: seq<Byte>)
    ensures data == Packed(ids)
  {
    data := [];
    for a := 0 to |ids|
      invariant data == Packed(ids[..a])
    {
      assert ids[..a + 1][..a] == ids[..a];
      data := BackupNext(data, ids[a]);
    }
    assert ids[..|ids|] == ids;
  }

  /** Writes one id more, behind a delimiter. */
  method BackupNext(before: seq<Byte>, id: seq<Byte>) returns (data: seq<Byte>)
    ensures data == Delimited(before) + Lowered(id)
  {
    data := before;
    var n := |data|;
    if n != 0 && data[n - 1] != DELIM {
      data := data + [DELIM];
    }
    data := AppendId(data, id);
  }

  method AppendId(before: seq<Byte>, id: seq<Byte>) returns (data: seq<Byte>)
    ensures data == before + Lowered(id)
  {
    data := before;
    Ends(id);
    for i := 0 to |id|
      invariant data + Lowered(id[i..]) == before + Lowered(id)
    {
      assert id[i..][1..] == id[i + 1..];
      data := data + [Lower(id[i])];
    }
    Ends(id);
  }

  lemma Ends<T>(s: seq<T>)
    ensures s[0..] == s && s[|s|..] == []
  {
  }

  method RestoreAccounts(data: seq<Byte>) returns (ids: seq<seq<Byte>>)
    ensures ids == Unpacked(data, [])
  {
    var ascii: seq<Byte> := [];
    ids := [];
    Ends(data);
    for i := 0 to |data|
      invariant ids + Unpacked(data[i..], ascii) == Unpacked(data, [])
    {
      assert data[i..][1..] == data[i + 1..];
      var b := data[i];
      if b == DELIM {
        if |ascii| != 0 {
          ids := ids + [ascii];
          ascii := [];
        }
        continue;
      }
      ascii := ascii + [Raise(b)];
    }
    Ends(data);
    if |ascii| != 0 {
      ids := ids + [ascii];
    }
  }

  // ----- what a restore gives back

  /** A delimiter ends the id before it. */
  lemma {:induction false} UnpackJoined(a: seq<Byte>, b: seq<Byte>, ascii: seq<Byte>)
    ensures Unpacked(a + [DELIM] + b, ascii) == Unpacked(a, ascii) + Unpacked(b, [])
    decreases |a|
  {
    var s := a + [DELIM] + b;
    if a == [] {
      assert s[1..] == b;
    } else {
      assert s[1..] == a[1..] + [DELIM] + b;
      if a[0] == DELIM {
        UnpackJoined(a[1..], b, []);
      } else {
        UnpackJoined(a[1..], b, ascii + [Raise(a[0])]);
      }
    }
  }

  lemma UnpackDelimited(d: seq<Byte>, b: seq<Byte>)
    ensures Unpacked(Delimited(d) + b, []) == Unpacked(d, []) + Unpacked(b, [])
  {
    if d == [] {
      assert Delimited(d) + b == b;
    } else if d[|d| - 1] == DELIM {
      var a := d[..|d| - 1];
      assert d == a + [DELIM] && d + b == a + [DELIM] + b && a + [DELIM] + [] == d;
      UnpackJoined(a, b, []);
      UnpackJoined(a, [], []);
    } else {
      UnpackJoined(d, b, []);
    }
  }

  /** The parts of an id between colons. */
  function Parts(id: seq<Byte>): seq<seq<Byte>> {
    Unpacked(Lowered(id), [])
  }

  function AllParts(ids: seq<seq<Byte>>): seq<seq<Byte>> {
    if ids == [] then [] else AllParts(ids[..|ids| - 1]) + Parts(ids[|ids| - 1])
  }

  /** A restored list holds the parts of all ids that were backed up. */
  lemma {:induction false} RestoreGivesParts(ids: seq<seq<Byte>>)
    ensures Unpacked(Packed(ids), []) == AllParts(ids)
  {
    if ids != [] {
      RestoreGivesParts(ids[..|ids| - 1]);
      UnpackDelimited(Packed(ids[..|ids| - 1]), Lowered(ids[|ids| - 1]));
    }
  }

  function NonEmpty(ids: seq<seq<Byte>>): seq<seq<Byte>> {
    if ids == [] then [] else NonEmpty(ids[..|ids| - 1]) + Grab(ids[|ids| - 1])
  }

  lemma LoweredOne(id: seq<Byte>)
    requires id != []
    ensures Lowered(id)[0] == Lower(id[0]) && Lowered(id)[1..] == Lowered(id[1..])
  {
  }

  /** No part holds a colon. */
  lemma {:induction false} PartHasNoColon(id: seq<Byte>, ascii: seq<Byte>, k: nat)
    requires COLON !in ascii && k < |Unpacked(Lowered(id), ascii)|
    ensures COLON !in Unpacked(Lowered(id), ascii)[k]
    decreases |id|
  {
    if id != [] {
      RaiseLower(id[0]);
      LoweredOne(id);
      if id[0] != COLON {
        PartHasNoColon(id[1..], ascii + [id[0]], k);
      } else if k >= |Grab(ascii)| {
        PartHasNoColon(id[1..], [], k - |Grab(ascii)|);
      }
    }
  }

  /** An id without colon is its only part. */
  lemma {:induction false} PartOfPlain(id: seq<Byte>, ascii: seq<Byte>)
    requires COLON !in id
    ensures Unpacked(Lowered(id), ascii) == Grab(ascii + id)
    decreases |id|
  {
    if id == [] {
      assert ascii + id == ascii;
    } else {
      RaiseLower(id[0]);
      LoweredOne(id);
      assert id == [id[0]] + id[1..];
      PartOfPlain(id[1..], ascii + [id[0]]);
      assert ascii + [id[0]] + id[1..] == ascii + id;
    }
  }

  lemma {:induction false} AllPartsHaveNoColon(ids: seq<seq<Byte>>, k: nat)
    requires k < |AllParts(ids)|
    ensures COLON !in AllParts(ids)[k]
  {
    var t, id := ids[..|ids| - 1], ids[|ids| - 1];
    if k < |AllParts(t)| {
      AllPartsHaveNoColon(t, k);
    } else {
      PartHasNoColon(id, [], k - |AllParts(t)|);
    }
  }

  lemma {:induction false} AllPartsOfPlain(ids: seq<seq<Byte>>)
    requires forall k :: 0 <= k < |ids| ==> COLON !in ids[k]
    ensures AllParts(ids) == NonEmpty(ids)
  {
    if ids != [] {
      AllPartsOfPlain(ids[..|ids| - 1]);
      PartOfPlain(ids[|ids| - 1], []);
      assert [] + ids[|ids| - 1] == ids[|ids| - 1];
    }
  }

  lemma {:induction false} NonEmptyHas(ids: seq<seq<Byte>>, k: nat)
    requires k < |ids| && ids[k] != []
    ensures ids[k] in NonEmpty(ids)
  {
    if k < |ids| - 1 {
      NonEmptyHas(ids[..|ids| - 1], k);
    } else {
      assert NonEmpty(ids)[|NonEmpty(ids)| - 1] == ids[k];
    }
  }

  /** A restore gives back the ids that were backed up, without empty ones, exactly when none of them holds a colon. */
  lemma RestoreUndoesBackup(ids: seq<seq<Byte>>)
    ensures Unpacked(Packed(ids), []) == NonEmpty(ids) <==> forall k :: 0 <= k < |ids| ==> COLON !in ids[k]
  {
    RestoreGivesParts(ids);
    if k :| 0 <= k < |ids| && COLON in ids[k] {
      NonEmptyHas(ids, k);
      var j :| 0 <= j < |NonEmpty(ids)| && NonEmpty(ids)[j] == ids[k];
      if j < |AllParts(ids)| {
        AllPartsHaveNoColon(ids, j);
      }
    } else {
      AllPartsOfPlain(ids);
    }
  }
}

/** Contacts of the form <oid[@host]>. */
module Contact {
  import opened Wrappers
  import Int64
  import opened Text
  import opened Decimal

  datatype Error = IdZero | IdMissing | InvalidName | NotInteger

  predicate HostChar(c: char) {
    || '0' <= c <= '9' || 'A' <= c <= 'Z' || 'a' <= c <= 'z'
    || c in {'-', '_', '[', ']', '.', ':'}
  }

  predicate ValidHost(host: string) {
    forall i :: 0 <= i < |host| ==> HostChar(host[i])
  }

  function NodeServiceContact(oid: string, host: string): (string, Option<Error>) {
    var id, node := Trim(oid), Trim(host);
    if node == "" then (id, None)
    else if id == "" then ("", None)
    else if !ValidHost(node) then ("", Some(InvalidName))
    else (id + "@" + node, None)
  }

  function ContactServiceNode(contact: string): (string, string) {
    var oid := Trim(contact);
    var at := LastIndex(oid, '@');
    if at > 0 then (oid[..at], oid[at + 1..]) else (oid, "")
  }

  function NodeObjectContact(oid: int, host: string): (string, Option<Error>) {
    if oid == 0 then ("", Some(IdMissing)) else NodeServiceContact(FormatInt(oid), host)
  }

  function ContactObjectNode(contact: string): (int, string, Option<Error>) {
    var (id, host) := ContactServiceNode(contact);
    var (oid, err) := ParseInt(id);
    (oid, host, if oid == 0 then Some(IdZero) else if err != NoError then Some(NotInteger) else None)
  }

  /** A printed contact with a node is parsed back to its trimmed parts. */
  lemma NodeIsParsed(id: string, node: string)
    requires Trimmed(id) && id != "" && node != "" && ValidHost(node)
    ensures ContactServiceNode(id + "@" + node) == (id, node)
  {
    var s := id + "@" + node;
    assert !IsSpace(node[|node| - 1]) by {
      assert HostChar(node[|node| - 1]);
    }
    assert s[0] == id[0] && s[|s| - 1] == node[|node| - 1];
    TrimOfTrimmed(s);
    forall j | |id| < j < |s| ensures s[j] != '@' {
      assert s[j] == node[j - |id| - 1] && HostChar(s[j]);
    }
    LastIndexIs(s, '@', |id|);
    assert s[..|id|] == id && s[|id| + 1..] == node;
  }

  /**
     Parsing gives back the trimmed id and host that were printed exactly when there is
     a host, and it is valid, and there is an id; or there is no host and no "@" beyond
     the start of the id.
   */
  lemma ServiceRoundTrip(oid: string, host: string)
    ensures var id, node := Trim(oid), Trim(host);
      var (contact, err) := NodeServiceContact(oid, host);
      err.None? && ContactServiceNode(contact) == (id, node) <==>
        if node == "" then LastIndex(id, '@') <= 0 else id != "" && ValidHost(node)
  {
    var id, node := Trim(oid), Trim(host);
    TrimIsTrimmed(oid);
    if node == "" {
      TrimOfTrimmed(id);
    } else if id == "" {
      assert Trim("") == "";
    } else if ValidHost(node) {
      NodeIsParsed(id, node);
    }
  }

  lemma FormatIsTrimmed(n: int)
    ensures Trimmed(FormatInt(n)) && Trim(FormatInt(n)) == FormatInt(n) && LastIndex(FormatInt(n), '@') == -1
  {
    var s := FormatInt(n);
    assert forall i :: 0 <= i < |s| ==> IsDigit(s[i]) || s[i] == '-';
    TrimOfTrimmed(s);
  }

  /** An object's contact is parsed back exactly when it has an id and a valid host, or none. */
  lemma ObjectRoundTrip(oid: int, host: string)
    requires Int64.Fits(oid)
    ensures var (contact, err) := NodeObjectContact(oid, host);
      err.None? && ContactObjectNode(contact) == (oid, Trim(host), None) <==> oid != 0 && ValidHost(Trim(host))
  {
    FormatIsTrimmed(oid);
    ParseFormat(oid);
    ServiceRoundTrip(FormatInt(oid), host);
  }

  /**
   There is no error exactly when the part before the host denotes a 64-bit integer
   other than zero, and then that is the id; an id that is no number is reported as zero,
   unless its leading digits alone are out of range.
   */
  lemma ObjectErrors(contact: string)
    ensures var (oid, host, err) := ContactObjectNode(contact);
      var (id, node) := ContactServiceNode(contact);
      && (err.None? <==> IsNumber(id) && Int64.Fits(Denotes(id)) && Denotes(id) != 0)
      && (err.None? ==> oid == Denotes(id) && host == node)
      && (IsNumber(id) && !Int64.Fits(Denotes(id)) ==> err == Some(NotInteger))
      && (!IsNumber(id) ==> err == Some(if Scan(Unsigned(id), 0) == OutOfRange then NotInteger else IdZero))
  {
    var (id, node) := ContactServiceNode(contact);
    ParseIs(id);
    ScanIs(Unsigned(id));
  }
}

/** A contact with an object's id in angle brackets, as the outcome of a Corezoid chat shows it. */
module Interlocutor {
  import Int64
  import opened Text
  import opened Decimal

  function Encode(oid: int, name: string): string {
    var contact := Trim(name);
    if oid != 0 then (if contact != "" then contact + " " else contact) + "<" + FormatInt(oid) + ">"
    else contact
  }

  function Decode(contact: string): (int, string) {
    var i := LastIndex(contact, '<');
    if i != -1 && contact[|contact| - 1] == '>'
    then
      assert i + 1 <= |contact| - 1;
      (ParseInt(contact[i + 1..|contact| - 1]).0, Trim(contact[..i]))
    else (0, contact)
  }

  /** An id is decoded as it was encoded, whatever the name. */
  lemma IdIsDecoded(oid: int, name: string)
    requires Int64.Fits(oid) && oid != 0
    ensures Decode(Encode(oid, name)) == (oid, Trim(name))
  {
    var contact, id := Trim(name), FormatInt(oid);
    var head := if contact != "" then contact + " " else contact;
    var s := head + "<" + id + ">";
    forall j | |head| < j < |s| ensures s[j] != '<' {
      assert j < |s| - 1 ==> s[j] == id[j - |head| - 1];
    }
    LastIndexIs(s, '<', |head|);
    assert s[|head| + 1..|s| - 1] == id && s[..|head|] == head;
    ParseFormat(oid);
    TrimIsTrimmed(name);
    TrimOfTrimmed(contact);
    if contact != "" {
      TrimOneSpace(contact);
    }
  }

  lemma TrimOneSpace(s: string)
    requires Trimmed(s) && s != ""
    ensures Trim(s + " ") == s
  {
    assert (s + " ")[0] == s[0];
    assert (s + " ")[..|s|] == s;
    TrimOfTrimmed(s);
  }

  lemma {:induction false} TrimShortens(s: string)
    ensures |TrimLeft(s)| <= |s| && |TrimRight(s)| <= |s|
  {
    if s != "" {
      TrimShortens(s[1..]);
      TrimShortens(s[..|s| - 1]);
    }
  }

  /** A name without an id is decoded as it is, exactly when it does not look like one with an id. */
  lemma NameIsDecoded(name: string)
    ensures Decode(Encode(0, name)) == (0, Trim(name)) <==>
      var s := Trim(name); !(s != "" && '<' in s && s[|s| - 1] == '>')
  {
    var s := Trim(name);
    var i := LastIndex(s, '<');
    if '<' in s {
      var j :| 0 <= j < |s| && s[j] == '<';
      assert i >= j;
      TrimShortens(s[..i]);
      TrimShortens(TrimLeft(s[..i]));
    }
  }
}

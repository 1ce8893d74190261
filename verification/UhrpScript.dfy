/** Push data and UHRP advertisement scripts, BRC-26 (internal/overlay/topics/uhrp.go). */
module UhrpScript {
  import opened Numbers
  import opened Wrappers
  import Hex

  // ---------------------------------------------------------- push data

  /** The field of the given size at start, and what follows it. */
  function TakeField(s: seq<byte>, start: nat, size: nat): Option<(seq<byte>, seq<byte>)> {
    if start + size > |s| then None else Some((s[start..start + size], s[start + size..]))
  }

  /** One round of parsePushDataFields: a field and the rest, or where parsing stops. */
  function TakePush(s: seq<byte>): Option<(seq<byte>, seq<byte>)>
    requires s != []
  {
    if s[0] == 0x00 then Some(([], s[1..]))
    else if s[0] <= 0x4b then TakeField(s, 1, s[0])
    else if s[0] == 0x4c then if |s| < 2 then None else TakeField(s, 2, s[1])
    else if s[0] == 0x4d then if |s| < 3 then None else TakeField(s, 3, s[1] as int + 0x100 * s[2] as int)
    else None
  }

  function ParseFields(s: seq<byte>): seq<seq<byte>> {
    if s == [] then []
    else
      match TakePush(s)
      case None => []
      case Some((field, rest)) => [field] + ParseFields(rest)
  }

  /** parsePushDataFields */
  method ParsePushDataFields(script: seq<byte>) returns (fields: seq<seq<byte>>)
    ensures fields == ParseFields(script)
  {
    hide TakePush;
    fields := [];
    var pos := 0;
    while pos < |script|
      invariant 0 <= pos <= |script|
      invariant fields + ParseFields(script[pos..]) == ParseFields(script)
    {
      var size, start := NextPush(script, pos);
      if start + size > |script| {
        return;
      }
      PushAt(script, pos, start, size);
      fields := fields + [script[start..start + size]];
      pos := start + size;
    }
  }

  /** The opcode at pos: where its field starts and how long it is, past the end when parsing stops. */
  method NextPush(script: seq<byte>, pos: nat) returns (size: nat, start: nat)
    requires pos < |script|
    ensures pos < start
    ensures TakePush(script[pos..]) == TakeField(script[pos..], start - pos, size)
  {
    var op := script[pos];
    start := pos + 1;
    if op == 0x00 {
      size := 0;
      assert script[pos..][1..1] == [];
    } else if op <= 0x4b {
      size := op;
    } else if op == 0x4c {
      size := |script|;
      if start < |script| {
        size := script[start];
        start := start + 1;
      }
    } else if op == 0x4d {
      size := |script|;
      if start + 2 <= |script| {
        size := script[start] as int + 0x100 * script[start + 1] as int;
        start := start + 2;
      }
    } else {
      size := |script|;
    }
  }

  lemma PushAt(script: seq<byte>, pos: nat, start: nat, size: nat)
    requires pos < start && start + size <= |script|
    requires TakePush(script[pos..]) == TakeField(script[pos..], start - pos, size)
    ensures ParseFields(script[pos..]) == [script[start..start + size]] + ParseFields(script[start + size..])
  {
    hide TakePush;
    var s := script[pos..];
    assert s[start - pos..start - pos + size] == script[start..start + size];
    assert s[start - pos + size..] == script[start + size..];
  }

  // ----------------------------------------------- parsing inverts pushing

  /** A push of each form the parser knows. */
  datatype Push = Zero | Direct(data: seq<byte>) | Data1(data: seq<byte>) | Data2(data: seq<byte>) {
    predicate Valid() {
      match this
      case Zero => true
      case Direct(d) => 1 <= |d| <= 0x4b
      case Data1(d) => |d| < 0x100
      case Data2(d) => |d| < 0x1_0000
    }

    function Field(): seq<byte> {
      if Zero? then [] else data
    }

    function Bytes(): seq<byte>
      requires Valid()
    {
      match this
      case Zero => [0x00]
      case Direct(d) => [|d|] + d
      case Data1(d) => [0x4c, |d|] + d
      case Data2(d) => [0x4d, |d| % 0x100, |d| / 0x100] + d
    }
  }

  ghost predicate AllValid(pushes: seq<Push>) {
    forall i :: 0 <= i < |pushes| ==> pushes[i].Valid()
  }

  ghost function PushScript(pushes: seq<Push>): seq<byte>
    requires AllValid(pushes)
  {
    if pushes == [] then [] else pushes[0].Bytes() + PushScript(pushes[1..])
  }

  function FieldsOf(pushes: seq<Push>): seq<seq<byte>> {
    if pushes == [] then [] else [pushes[0].Field()] + FieldsOf(pushes[1..])
  }

  /** Parsing stops at the end, at a field cut short and at any other opcode. */
  predicate Stops(s: seq<byte>) {
    s == [] || TakePush(s).None?
  }

  lemma TakePushInverts(p: Push, rest: seq<byte>)
    requires p.Valid()
    ensures TakePush(p.Bytes() + rest) == Some((p.Field(), rest))
  {
    var s, start := p.Bytes() + rest, |p.Bytes()| - |p.Field()|;
    assert s[start..start + |p.Field()|] == p.Field();
    assert s[start + |p.Field()|..] == rest;
  }

  /** The parser inverts the encoding of any list of fields, whatever the form of each push. */
  lemma {:induction false} ParseInvertsPushes(pushes: seq<Push>, tail: seq<byte>)
    requires AllValid(pushes) && Stops(tail)
    ensures ParseFields(PushScript(pushes) + tail) == FieldsOf(pushes)
  {
    hide TakePush;
    if pushes == [] {
      assert PushScript(pushes) + tail == tail;
    } else {
      var rest := PushScript(pushes[1..]) + tail;
      assert PushScript(pushes) + tail == pushes[0].Bytes() + rest;
      TakePushInverts(pushes[0], rest);
      ParseInvertsPushes(pushes[1..], tail);
    }
  }

  /** Conversely, every script is such an encoding of the fields found in it, up to where parsing stops. */
  lemma {:induction false} ParsedIsPushed(s: seq<byte>) returns (pushes: seq<Push>, tail: seq<byte>)
    ensures AllValid(pushes) && Stops(tail)
    ensures s == PushScript(pushes) + tail && ParseFields(s) == FieldsOf(pushes)
    decreases |s|
  {
    hide TakePush;
    if Stops(s) {
      pushes, tail := [], s;
    } else {
      var p, rest := PushOf(s);
      var more;
      more, tail := ParsedIsPushed(rest);
      pushes := [p] + more;
      PushFirst(p, more, tail);
    }
  }

  lemma PushFirst(p: Push, more: seq<Push>, tail: seq<byte>)
    requires p.Valid() && AllValid(more)
    ensures AllValid([p] + more)
    ensures PushScript([p] + more) + tail == p.Bytes() + (PushScript(more) + tail)
    ensures FieldsOf([p] + more) == [p.Field()] + FieldsOf(more)
  {
    assert ([p] + more)[1..] == more;
  }

  lemma PushOf(s: seq<byte>) returns (p: Push, rest: seq<byte>)
    requires !Stops(s)
    ensures p.Valid() && s == p.Bytes() + rest && TakePush(s) == Some((p.Field(), rest))
    ensures |rest| < |s|
  {
    var (field, r) := TakePush(s).value;
    rest := r;
    p := if s[0] == 0x00 then Zero
         else if s[0] <= 0x4b then Direct(field)
         else if s[0] == 0x4c then Data1(field)
         else Data2(field);
  }

  // ------------------------------------------------- UHRP advertisements

  /** "UHRP" */
  const PROTOCOL_ID: seq<byte> := [0x55, 0x48, 0x52, 0x50]

  datatype Entry = Entry(contentHash: string, url: seq<byte>, contentType: seq<byte>)

  /** A Go string of these bytes, one char a byte. */
  function Text(b: seq<byte>): string {
    seq(|b|, i requires 0 <= i < |b| => b[i] as char)
  }

  function FieldOr(fields: seq<seq<byte>>, i: nat): seq<byte> {
    if i < |fields| then fields[i] else []
  }

  /** What the fields after OP_FALSE OP_RETURN advertise. */
  function EntryOf(fields: seq<seq<byte>>): Option<Entry> {
    if |fields| < 2 || fields[0] != PROTOCOL_ID then None
    else if |fields[1]| == 32 then Some(Entry(Hex.Encode(fields[1]), FieldOr(fields, 2), FieldOr(fields, 3)))
    else if |fields[1]| == 64 then Some(Entry(Text(fields[1]), FieldOr(fields, 2), FieldOr(fields, 3)))
    else None
  }

  function Advertised(script: seq<byte>): Option<Entry> {
    if |script| < 6 || script[0] != 0x00 || script[1] != 0x6a then None
    else EntryOf(ParseFields(script[2..]))
  }

  /** parseUHRPOutput */
  method ParseUHRPOutput(script: seq<byte>) returns (entry: Option<Entry>)
    ensures entry == Advertised(script)
  {
    if |script| < 6 || script[0] != 0x00 || script[1] != 0x6a {
      return None;
    }
    var fields := ParsePushDataFields(script[2..]);
    if |fields| < 2 || fields[0] != PROTOCOL_ID {
      return None;
    }
    var contentHash;
    if |fields[1]| == 32 {
      contentHash := Hex.Encode(fields[1]);
    } else if |fields[1]| == 64 {
      contentHash := Text(fields[1]);
    } else {
      return None;
    }
    var url, contentType: seq<byte> := [], [];
    if |fields| > 2 {
      url := fields[2];
    }
    if |fields| > 3 {
      contentType := fields[3];
    }
    return Some(Entry(contentHash, url, contentType));
  }

  /** These pushes, behind OP_FALSE OP_RETURN, advertise e: the protocol name, a hash of 32 bytes or of 64 characters,
      and perhaps a URL and a content type. */
  predicate Advertises(pushes: seq<Push>, e: Entry) {
    && |pushes| >= 2 && pushes[0].Field() == [0x55, 0x48, 0x52, 0x50]
    && (var hash := pushes[1].Field();
        || (|hash| == 32 && e.contentHash == Hex.Encode(hash))
        || (|hash| == 64 && |e.contentHash| == 64 && forall i :: 0 <= i < 64 ==> e.contentHash[i] as int == hash[i]))
    && e.url == (if |pushes| > 2 then pushes[2].Field() else [])
    && e.contentType == (if |pushes| > 3 then pushes[3].Field() else [])
  }

  lemma {:induction false} FieldAt(pushes: seq<Push>, i: nat)
    ensures |FieldsOf(pushes)| == |pushes|
    ensures i < |pushes| ==> FieldsOf(pushes)[i] == pushes[i].Field()
  {
    if pushes != [] {
      FieldAt(pushes[1..], if i == 0 then 0 else i - 1);
    }
  }

  lemma FieldsAdvertise(pushes: seq<Push>, e: Entry)
    ensures EntryOf(FieldsOf(pushes)) == Some(e) <==> Advertises(pushes, e)
  {
    hide FieldsOf, Hex.Encode;
    FieldAt(pushes, 0);
    FieldAt(pushes, 1);
    FieldAt(pushes, 2);
    FieldAt(pushes, 3);
    if |pushes| >= 2 && |pushes[1].Field()| == 64 {
      var hash := pushes[1].Field();
      if |e.contentHash| == 64 && forall i :: 0 <= i < 64 ==> e.contentHash[i] as int == hash[i] {
        assert e.contentHash == Text(hash);
      }
    }
  }

  /** A script is an advertisement exactly when it is OP_FALSE OP_RETURN and such pushes, with anything behind them at
      which parsing stops; a script behind other bytes, with another protocol name or another hash length is none. */
  lemma AdvertisedExactly(script: seq<byte>, e: Entry)
    ensures Advertised(script) == Some(e) <==>
      exists pushes, tail ::
        AllValid(pushes) && Stops(tail) && script == [0x00, 0x6a] + (PushScript(pushes) + tail) && Advertises(pushes, e)
  {
    hide EntryOf, TakePush, ParseFields, Advertises, Stops, PushScript, AllValid;
    if Advertised(script) == Some(e) {
      var pushes, tail := ParsedIsPushed(script[2..]);
      FieldsAdvertise(pushes, e);
      assert script == [0x00, 0x6a] + script[2..];
    }
    if pushes, tail :|
      AllValid(pushes) && Stops(tail) && script == [0x00, 0x6a] + (PushScript(pushes) + tail) && Advertises(pushes, e) {
      ParseInvertsPushes(pushes, tail);
      FieldsAdvertise(pushes, e);
      AdvertisementIsLong(pushes, e);
      assert script[2..] == PushScript(pushes) + tail;
    }
  }

  lemma AdvertisementIsLong(pushes: seq<Push>, e: Entry)
    requires AllValid(pushes) && Advertises(pushes, e)
    ensures |PushScript(pushes)| >= 4
  {
    assert PushScript(pushes) == pushes[0].Bytes() + PushScript(pushes[1..]);
  }

  /** Go's byte(len(s)). */
  function LengthByte(s: seq<byte>): byte {
    |s| % 0x100
  }

  function UrlPush(url: seq<byte>): seq<byte> {
    if url == [] then []
    else if |url| <= 75 then [LengthByte(url)] + url
    else [0x4c, LengthByte(url)] + url
  }

  function TypePush(contentType: seq<byte>): seq<byte> {
    if contentType == [] then [] else [LengthByte(contentType)] + contentType
  }

  /** OP_FALSE OP_RETURN "UHRP" and the hash. */
  function Prefix(hashBytes: seq<byte>): seq<byte> {
    [0x00, 0x6a] + ([0x04] + PROTOCOL_ID) + ([LengthByte(hashBytes)] + hashBytes)
  }

  predicate IsContentHash(contentHash: string) {
    var (hashBytes, ok) := Hex.Decode(contentHash);
    ok && |hashBytes| == 32
  }

  // The three parts, byte by byte.
  lemma PartsAreBytes(hashBytes: seq<byte>, url: seq<byte>, contentType: seq<byte>)
    requires |hashBytes| == 32
    ensures Prefix(hashBytes) == [0x00, 0x6a, 0x04, 0x55, 0x48, 0x52, 0x50, 0x20] + hashBytes
    ensures UrlPush(url) == if url == [] then [] else if |url| <= 75 then [|url|] + url else [0x4c, |url| % 0x100] + url
    ensures TypePush(contentType) == if contentType == [] then [] else [|contentType| % 0x100] + contentType
  {
  }

  /** BuildUHRPScript: no script unless the hash is 32 bytes of hex. */
  method BuildUHRPScript(contentHash: string, url: seq<byte>, contentType: seq<byte>) returns (r: Option<seq<byte>>)
    ensures r.Some? <==> IsContentHash(contentHash)
    ensures r.Some? ==>
      r.value ==
        [0x00, 0x6a, 0x04, 0x55, 0x48, 0x52, 0x50, 0x20] + Hex.Decode(contentHash).0
        + (if url == [] then [] else if |url| <= 75 then [|url|] + url else [0x4c, |url| % 0x100] + url)
        + (if contentType == [] then [] else [|contentType| % 0x100] + contentType)
    ensures r.Some? ==> r.value == Prefix(Hex.Decode(contentHash).0) + UrlPush(url) + TypePush(contentType)
  {
    hide Hex.Decode;
    var (hashBytes, ok) := Hex.Decode(contentHash);
    if !ok || |hashBytes| != 32 {
      return None;
    }
    PartsAreBytes(hashBytes, url, contentType);
    var script := Header(hashBytes);
    ghost var prefix := script;
    if url != [] {
      if |url| <= 75 {
        script := script + ([LengthByte(url)] + url);
      } else {
        script := script + ([0x4c, LengthByte(url)] + url);
      }
    }
    assert script == prefix + UrlPush(url);
    if contentType != [] {
      script := script + ([LengthByte(contentType)] + contentType);
    }
    return Some(script);
  }

  method Header(hashBytes: seq<byte>) returns (script: seq<byte>)
    ensures script == Prefix(hashBytes)
  {
    script := [0x00, 0x6a];
    script := script + ([0x04] + PROTOCOL_ID);
    script := script + ([LengthByte(hashBytes)] + hashBytes);
  }

  // ------------------------------------------------------- the round trip

  // Behind the prefix the parser sees the protocol, the hash and the fields of the rest.
  lemma FieldsBehindPrefix(hashBytes: seq<byte>, rest: seq<byte>)
    requires |hashBytes| == 32
    ensures Advertised(Prefix(hashBytes) + rest) ==
            Some(Entry(Hex.Encode(hashBytes), FieldOr(ParseFields(rest), 0), FieldOr(ParseFields(rest), 1)))
  {
    hide TakePush, Hex.Encode;
    var protocol, hash := Direct(PROTOCOL_ID), Direct(hashBytes);
    var script := Prefix(hashBytes) + rest;
    TakePushInverts(hash, rest);
    TakePushInverts(protocol, hash.Bytes() + rest);
    assert script[2..] == protocol.Bytes() + (hash.Bytes() + rest);
    assert ParseFields(script[2..]) == [PROTOCOL_ID] + ([hashBytes] + ParseFields(rest));
  }

  // A push is longer than its field.
  lemma PushTakesRoom(s: seq<byte>)
    requires !Stops(s)
    ensures |TakePush(s).value.0| + |TakePush(s).value.1| < |s|
  {
  }

  // No field of a script is as long as the script.
  lemma FirstFieldIsShorter(s: seq<byte>, data: seq<byte>)
    requires |s| <= |data| && data != []
    ensures FieldOr(ParseFields(s), 0) != data
  {
    hide TakePush;
    if !Stops(s) {
      PushTakesRoom(s);
    }
  }

  // A content type comes back when its length is itself a direct push, and not otherwise.
  lemma TypeComesBack(contentType: seq<byte>)
    ensures FieldOr(ParseFields(TypePush(contentType)), 0) == contentType <==> |contentType| <= 75
  {
    var s := TypePush(contentType);
    if contentType != [] && |contentType| <= 75 {
      TakePushInverts(Direct(contentType), []);
      assert Direct(contentType).Bytes() + [] == s;
    } else if contentType != [] && !Stops(s) {
      assert |TakePush(s).value.0| < |contentType|;
    }
  }

  lemma FirstField(s: seq<byte>)
    requires !Stops(s)
    ensures FieldOr(ParseFields(s), 0) == TakePush(s).value.0
  {
  }

  // The length byte of a long URL has wrapped, so only its beginning is read.
  lemma LongUrlIsCut(url: seq<byte>, rest: seq<byte>)
    requires |url| > 255
    ensures FieldOr(ParseFields(UrlPush(url) + rest), 0) == url[..LengthByte(url)] != url
  {
    hide ParseFields;
    var s, n := UrlPush(url) + rest, LengthByte(url);
    assert s[2..2 + n] == url[..n];
    assert TakePush(s) == Some((url[..n], s[2 + n..]));
    FirstField(s);
  }

  lemma UrlComesBack(url: seq<byte>, rest: seq<byte>)
    requires url != []
    ensures |url| <= 255 ==> ParseFields(UrlPush(url) + rest) == [url] + ParseFields(rest)
    ensures |url| > 255 ==> FieldOr(ParseFields(UrlPush(url) + rest), 0) != url
  {
    hide TakePush;
    if |url| <= 75 {
      TakePushInverts(Direct(url), rest);
    } else if |url| <= 255 {
      TakePushInverts(Data1(url), rest);
    } else {
      LongUrlIsCut(url, rest);
    }
  }

  // A content type alone is never read back as one.
  lemma TypeNeedsUrl(contentType: seq<byte>)
    requires contentType != []
    ensures FieldOr(ParseFields(TypePush(contentType)), 1) != contentType
  {
    hide TakePush;
    var s := TypePush(contentType);
    if !Stops(s) {
      PushTakesRoom(s);
      FirstFieldIsShorter(TakePush(s).value.1, contentType);
    }
  }

  /** A built script parses back to its hash in lower case, url and content type exactly under these limits. */
  lemma UhrpRoundTrip(contentHash: string, url: seq<byte>, contentType: seq<byte>)
    requires IsContentHash(contentHash)
    ensures Advertised(Prefix(Hex.Decode(contentHash).0) + UrlPush(url) + TypePush(contentType)) ==
            Some(Entry(Hex.ToLower(contentHash), url, contentType))
       <==> |url| <= 255 && |contentType| <= 75 && (url == [] ==> contentType == [])
  {
    hide ParseFields, TypePush, UrlPush, Prefix, Advertised;
    var hashBytes, rest := Hex.Decode(contentHash).0, UrlPush(url) + TypePush(contentType);
    Hex.DecodeEncode(contentHash);
    FieldsBehindPrefix(hashBytes, rest);
    assert Prefix(hashBytes) + UrlPush(url) + TypePush(contentType) == Prefix(hashBytes) + rest;
    TypeComesBack(contentType);
    if url != [] {
      UrlComesBack(url, TypePush(contentType));
    } else {
      assert rest == TypePush(contentType) by { NoUrl(); }
      if contentType != [] {
        TypeNeedsUrl(contentType);
      } else {
        NothingOptional();
      }
    }
  }

  lemma NoUrl()
    ensures UrlPush([]) == []
  {
  }

  lemma NothingOptional()
    ensures ParseFields(TypePush([])) == []
  {
  }
}

/** Issuing and verifying v2 licence keys. */
module License {
  import opened Prelude
  import opened IsoText
  import opened Base64

  // ---------------------------------------------------------------------
  // Flat JSON objects
  // ---------------------------------------------------------------------

  /** A JSON value; numbers that are not integers, booleans, nulls, arrays and objects are Other. */
  datatype Json = Num(n: int) | Str(s: string) | Other(tag: int, equalsTwo: bool)

  type Dict = map<string, Json>

  datatype Member = Member(key: string, value: Json)

  predicate PlainChar(c: char) { ' ' <= c <= '~' && c != '"' && c != '\\' }

  /** Text that JSON writes between quotes as it is. */
  predicate Plain(s: string) { forall i :: 0 <= i < |s| ==> PlainChar(s[i]) }

  predicate FlatValue(v: Json) { v.Num? || (v.Str? && Plain(v.s)) }

  predicate Flat(ms: seq<Member>) { forall i :: 0 <= i < |ms| ==> Plain(ms[i].key) && FlatValue(ms[i].value) }

  /** Keys in strictly ascending code-point order, as sort_keys writes them. */
  predicate Ordered(ms: seq<Member>) { forall i, j :: 0 <= i < j < |ms| ==> LexLess(ms[i].key, ms[j].key) }

  function DictOf(ms: seq<Member>): Dict {
    if ms == [] then map[] else DictOf(ms[..|ms| - 1])[ms[|ms| - 1].key := ms[|ms| - 1].value]
  }

  function Quote(s: string): string { ['"'] + s + ['"'] }

  function PrintValue(v: Json): string
    requires FlatValue(v)
  {
    if v.Num? then Decimal(v.n) else Quote(v.s)
  }

  function PrintMember(m: Member): string
    requires FlatValue(m.value)
  {
    Quote(m.key) + [':'] + PrintValue(m.value)
  }

  /** Separators "," and ":", no spaces. */
  function PrintMembers(ms: seq<Member>): string
    requires Flat(ms)
  {
    if ms == [] then ""
    else if |ms| == 1 then PrintMember(ms[0])
    else PrintMember(ms[0]) + [','] + PrintMembers(ms[1..])
  }

  function PrintFlat(ms: seq<Member>): string
    requires Flat(ms)
  {
    ['{'] + PrintMembers(ms) + ['}']
  }

  // --- reading them ------------------------------------------------------

  datatype Read<T> = NoRead | Read(value: T, rest: string)

  function PlainPrefix(s: string): (n: nat)
    ensures n <= |s|
  {
    if s == [] || !PlainChar(s[0]) then 0 else 1 + PlainPrefix(s[1..])
  }

  function NumberPrefix(s: string): (n: nat)
    ensures n <= |s|
  {
    if s == [] || !(IsDigit(s[0]) || s[0] == '-') then 0 else 1 + NumberPrefix(s[1..])
  }

  function ReadString(s: string): (r: Read<string>)
    ensures r.Read? ==> |r.rest| < |s|
  {
    if s == [] || s[0] != '"' then NoRead
    else
      var n := PlainPrefix(s[1..]);
      if n == |s| - 1 || s[n + 1] != '"' then NoRead else Read(s[1..n + 1], s[n + 2..])
  }

  function ReadValue(s: string): (r: Read<Json>)
    ensures r.Read? ==> |r.rest| <= |s|
  {
    if s != [] && s[0] == '"' then
      var r := ReadString(s);
      if r.NoRead? then NoRead else Read(Str(r.value), r.rest)
    else
      var n := NumberPrefix(s);
      var v := ParseInt(s[..n]);
      if v.None? || Decimal(v.value) != s[..n] then NoRead else Read(Num(v.value), s[n..])
  }

  function ReadMember(s: string): (r: Read<Member>)
    ensures r.Read? ==> |r.rest| < |s|
  {
    var key := ReadString(s);
    if key.NoRead? || key.rest == [] || key.rest[0] != ':' then NoRead
    else
      var value := ReadValue(key.rest[1..]);
      if value.NoRead? then NoRead else Read(Member(key.value, value.value), value.rest)
  }

  function ReadMembers(s: string): Option<seq<Member>>
    decreases |s|
  {
    var m := ReadMember(s);
    if m.NoRead? then None
    else if m.rest == [] then Some([m.value])
    else if m.rest[0] != ',' then None
    else
      var more := ReadMembers(m.rest[1..]);
      if more.None? then None else Some([m.value] + more.value)
  }

  /** The members of a flat object, for texts in this part of JSON's grammar. */
  function ReadFlat(s: string): Option<seq<Member>> {
    if |s| < 2 || s[0] != '{' || s[|s| - 1] != '}' then None
    else if |s| == 2 then Some([])
    else ReadMembers(s[1..|s| - 1])
  }

  lemma {:induction false} PlainPrefixStops(s: string, c: char, rest: string)
    requires Plain(s) && !PlainChar(c)
    ensures PlainPrefix(s + [c] + rest) == |s|
  {
    if s == [] {
      assert ([] + [c] + rest)[0] == c;
    } else {
      assert (s + [c] + rest)[1..] == s[1..] + [c] + rest;
      PlainPrefixStops(s[1..], c, rest);
    }
  }

  lemma {:induction false} NumberPrefixStops(s: string, rest: string)
    requires forall i :: 0 <= i < |s| ==> IsDigit(s[i]) || s[i] == '-'
    requires rest == [] || rest[0] == ','
    ensures NumberPrefix(s + rest) == |s|
  {
    if s == [] {
      assert s + rest == rest;
    } else {
      assert (s + rest)[1..] == s[1..] + rest;
      NumberPrefixStops(s[1..], rest);
    }
  }

  lemma ReadStringBack(s: string, rest: string)
    requires Plain(s)
    ensures ReadString(Quote(s) + rest) == Read(s, rest)
  {
    var t := Quote(s) + rest;
    assert t[1..] == s + ['"'] + rest;
    PlainPrefixStops(s, '"', rest);
    assert t[1..|s| + 1] == s && t[|s| + 2..] == rest;
  }

  lemma ReadValueBack(v: Json, rest: string)
    requires FlatValue(v) && (rest == [] || rest[0] == ',')
    ensures ReadValue(PrintValue(v) + rest) == Read(v, rest)
  {
    if v.Str? {
      ReadStringBack(v.s, rest);
      assert (PrintValue(v) + rest)[0] == '"';
    } else {
      var d := Decimal(v.n);
      NumberPrefixStops(d, rest);
      DecimalRoundTrip(v.n);
      assert (d + rest)[..|d|] == d && (d + rest)[|d|..] == rest;
      assert (d + rest)[0] == d[0];
    }
  }

  lemma ReadMemberBack(m: Member, rest: string)
    requires Plain(m.key) && FlatValue(m.value) && (rest == [] || rest[0] == ',')
    ensures ReadMember(PrintMember(m) + rest) == Read(m, rest)
  {
    var tail := [':'] + (PrintValue(m.value) + rest);
    assert PrintMember(m) + rest == Quote(m.key) + tail;
    ReadStringBack(m.key, tail);
    assert tail[1..] == PrintValue(m.value) + rest;
    ReadValueBack(m.value, rest);
  }

  lemma ReadLast(m: Member)
    requires Plain(m.key) && FlatValue(m.value)
    ensures ReadMembers(PrintMember(m)) == Some([m])
  {
    ReadMemberBack(m, "");
    assert PrintMember(m) + "" == PrintMember(m);
  }

  lemma ReadNext(m: Member, more: string)
    requires Plain(m.key) && FlatValue(m.value) && ReadMembers(more).Some?
    ensures ReadMembers(PrintMember(m) + ([','] + more)) == Some([m] + ReadMembers(more).value)
  {
    var rest := [','] + more;
    ReadMemberBack(m, rest);
    assert rest[1..] == more;
  }

  lemma PrintedApart(ms: seq<Member>)
    requires Flat(ms) && |ms| > 1
    ensures PrintMembers(ms) == PrintMember(ms[0]) + ([','] + PrintMembers(ms[1..]))
  {
  }

  lemma {:induction false} ReadMembersBack(ms: seq<Member>)
    requires Flat(ms) && ms != []
    ensures ReadMembers(PrintMembers(ms)) == Some(ms)
  {
    if |ms| == 1 {
      ReadLast(ms[0]);
      assert ms == [ms[0]];
    } else {
      var more := PrintMembers(ms[1..]);
      ReadMembersBack(ms[1..]);
      ReadNext(ms[0], more);
      PrintedApart(ms);
      assert ms == [ms[0]] + ms[1..];
    }
  }

  /** Reading undoes printing, for every flat object. */
  lemma ReadFlatBack(ms: seq<Member>)
    requires Flat(ms)
    ensures ReadFlat(PrintFlat(ms)) == Some(ms)
  {
    var s := PrintFlat(ms);
    assert s[1..|s| - 1] == PrintMembers(ms);
    if ms != [] { ReadMembersBack(ms); }
  }

  // ---------------------------------------------------------------------
  // Keys
  // ---------------------------------------------------------------------

  /** The library calls: json.loads of an object, json.dumps with sorted keys, bytes.decode,
      date.fromisoformat and HMAC-SHA256. */
  datatype Library = Library(
    loads: string -> Option<Dict>,
    dumps: Dict -> string,
    utf8: seq<byte> -> Option<string>,
    fromIso: string -> Option<Date>,
    sign: (seq<byte>, seq<byte>) -> seq<byte>)

  /** All that is assumed of them: JSON's grammar on flat objects, ASCII output, ASCII decoding,
      ISO dates in the extended form, a 32-byte digest. */
  ghost predicate Faithful(lib: Library) {
    && (forall s {:trigger lib.loads(s)} :: ReadFlat(s).Some? ==> lib.loads(s) == Some(DictOf(ReadFlat(s).value)))
    && (forall ms {:trigger DictOf(ms)} :: Flat(ms) && Ordered(ms) ==> lib.dumps(DictOf(ms)) == PrintFlat(ms))
    && (forall d {:trigger lib.dumps(d)} :: Ascii(lib.dumps(d)))
    && ReadsAscii(lib.utf8)
    && (forall s {:trigger lib.fromIso(s)} :: FromIso(s).Some? ==> lib.fromIso(s) == FromIso(s))
    && (forall m, k {:trigger lib.sign(m, k)} :: |lib.sign(m, k)| == 32)
  }

  datatype Status = Valid | Expired | Invalid

  datatype Verdict = Verdict(status: Status, expiresAt: Option<Date>, licensee: Option<string>)

  const INVALID: Verdict := Verdict(Invalid, None, None)
  const SIG_LENGTH: nat := 32

  function CanonicalBytes(lib: Library, d: Dict): seq<byte>
    requires Ascii(lib.dumps(d))
  {
    AsciiBytes(lib.dumps(d))
  }

  /** base64url without padding. */
  function Segment(bytes: seq<byte>): string { StripPads(Encode(bytes)) }

  /** urlsafe_b64decode of re-padded text; text outside ASCII is an error. */
  function DecodeSegment(s: string): Option<seq<byte>> {
    if Ascii(s) then Decode(Repad(s)) else None
  }

  /** str.partition("."): what stands before and after the first dot. */
  function Partition(s: string): (r: (string, bool, string))
    ensures r.1 ==> s == r.0 + "." + r.2
    ensures !r.1 ==> r.2 == ""
  {
    if s == [] then ("", false, "")
    else if s[0] == '.' then ("", true, s[1..])
    else
      var r := Partition(s[1..]);
      ([s[0]] + r.0, r.1, r.2)
  }

  function DecodePayload(lib: Library, s: string): Option<Dict> {
    var raw := DecodeSegment(s);
    if raw.None? then None
    else
      var text := lib.utf8(raw.value);
      if text.None? then None else lib.loads(text.value)
  }

  function DecodeRaw(lib: Library, body: string): Option<(Dict, seq<byte>)> {
    var parts := Partition(body);
    if !parts.1 || parts.0 == "" || parts.2 == "" then None
    else
      var payload, sig := DecodePayload(lib, parts.0), DecodeSegment(parts.2);
      if payload.None? || sig.None? || |sig.value| != SIG_LENGTH then None
      else Some((payload.value, sig.value))
  }

  predicate IsTwo(v: Json) { v == Num(2) || (v.Other? && v.equalsTwo) }

  datatype Fields = Fields(nbf: Date, exp: Date, licensee: string)

  function ExtractFields(lib: Library, d: Dict): Option<Fields> {
    if "v" !in d || !IsTwo(d["v"]) then None
    else if "nbf" !in d || !d["nbf"].Str? then None
    else if "exp" !in d || !d["exp"].Str? then None
    else if "lic" !in d || !d["lic"].Str? then None
    else
      var nbf, exp := lib.fromIso(d["nbf"].s), lib.fromIso(d["exp"].s);
      if nbf.None? || exp.None? then None else Some(Fields(nbf.value, exp.value, d["lic"].s))
  }

  /** `today` is the calendar date of an aware now; a naive now has none. */
  function Verify(lib: Library, key: string, secret: seq<byte>, today: Option<Date>): Verdict
    requires forall d {:trigger lib.dumps(d)} :: Ascii(lib.dumps(d))
  {
    if today.None? then INVALID
    else
      var parts := Partition(key);
      if parts.0 == "" || parts.2 == "" then INVALID
      else if parts.0 != "v2" then INVALID
      else
        var raw := DecodeRaw(lib, parts.2);
        if raw.None? then INVALID
        else if lib.sign(CanonicalBytes(lib, raw.value.0), secret) != raw.value.1 then INVALID
        else
          var fields := ExtractFields(lib, raw.value.0);
          if fields.None? then INVALID else InRange(fields.value, today.value)
  }

  function InRange(f: Fields, today: Date): Verdict {
    if Before(today, f.nbf) then INVALID
    else if Before(f.exp, today) then Verdict(Expired, Some(f.exp), Some(f.licensee))
    else Verdict(Valid, Some(f.exp), Some(f.licensee))
  }

  /** The payload dict of the command line, in the order its keys are written. */
  function IssuedDict(nbf: Date, exp: Date): Dict {
    map["v" := Num(2), "nbf" := Str(IsoDate(nbf)), "exp" := Str(IsoDate(exp)), "lic" := Str("interactive")]
  }

  function BuildKey(lib: Library, nbf: Date, exp: Date, secret: seq<byte>): string
    requires forall d {:trigger lib.dumps(d)} :: Ascii(lib.dumps(d))
  {
    var bytes := CanonicalBytes(lib, IssuedDict(nbf, exp));
    "v2." + Segment(bytes) + "." + Segment(lib.sign(bytes, secret))
  }

  // ---------------------------------------------------------------------
  // An issued key verifies
  // ---------------------------------------------------------------------

  /** The same members in sorted key order: exp, lic, nbf, v. */
  function IssuedMembers(nbf: Date, exp: Date): seq<Member> {
    [Member("exp", Str(IsoDate(exp))), Member("lic", Str("interactive")),
     Member("nbf", Str(IsoDate(nbf))), Member("v", Num(2))]
  }

  lemma PlainDate(d: Date)
    ensures Plain(IsoDate(d))
  {
    assert Plain(Digits(d.year, 4)) && Plain(Digits(d.month, 2)) && Plain(Digits(d.day, 2));
  }

  lemma KeysInOrder()
    ensures LexLess("exp", "lic") && LexLess("lic", "nbf") && LexLess("nbf", "v")
    ensures LexLess("exp", "nbf") && LexLess("exp", "v") && LexLess("lic", "v")
  {
  }

  lemma IssuedOrdered(nbf: Date, exp: Date)
    ensures Flat(IssuedMembers(nbf, exp)) && Ordered(IssuedMembers(nbf, exp))
  {
    hide LexLess, IsoDate;
    PlainDate(nbf);
    PlainDate(exp);
    KeysInOrder();
  }

  lemma IssuedFlat(nbf: Date, exp: Date)
    ensures var ms := IssuedMembers(nbf, exp); Flat(ms) && Ordered(ms) && DictOf(ms) == IssuedDict(nbf, exp)
  {
    hide LexLess, IsoDate, Flat, Ordered;
    var ms := IssuedMembers(nbf, exp);
    IssuedOrdered(nbf, exp);
    assert ms[..3][..2][..1] == ms[..1] && ms[..3][..2] == ms[..2];
    assert DictOf(ms[..1]) == map[][ms[0].key := ms[0].value];
    assert DictOf(ms[..2]) == DictOf(ms[..1])[ms[1].key := ms[1].value];
    assert DictOf(ms[..3]) == DictOf(ms[..2])[ms[2].key := ms[2].value];
  }

  /** Segments of symbols hold no dot, are ASCII and decode to what was encoded. */
  lemma SegmentBack(bytes: seq<byte>)
    ensures DecodeSegment(Segment(bytes)) == Some(bytes)
    ensures '.' !in Segment(bytes)
    ensures bytes != [] ==> Segment(bytes) != ""
  {
    RepadStripped(bytes);
    DecodeEncode(bytes);
    BareSymbols(bytes);
  }

  lemma {:induction false} BareSymbols(bytes: seq<byte>)
    ensures forall i :: 0 <= i < |Bare(bytes)| ==> Bare(bytes)[i] != '.' && Bare(bytes)[i] < '\U{80}'
  {
    if |bytes| >= 3 { BareSymbols(bytes[3..]); }
  }

  lemma {:induction false} PartitionAt(front: string, back: string)
    requires '.' !in front
    ensures Partition(front + "." + back) == (front, true, back)
  {
    var s := front + "." + back;
    if front == [] {
      assert s[1..] == back;
    } else {
      assert s[1..] == front[1..] + "." + back;
      PartitionAt(front[1..], back);
      assert front == [front[0]] + front[1..];
    }
  }

  lemma PayloadBack(lib: Library, nbf: Date, exp: Date)
    requires Faithful(lib)
    ensures DecodePayload(lib, Segment(CanonicalBytes(lib, IssuedDict(nbf, exp)))) == Some(IssuedDict(nbf, exp))
    ensures CanonicalBytes(lib, IssuedDict(nbf, exp)) != []
  {
    var d, ms := IssuedDict(nbf, exp), IssuedMembers(nbf, exp);
    IssuedFlat(nbf, exp);
    ReadFlatBack(ms);
    assert lib.dumps(d) == PrintFlat(ms);
    SegmentBack(CanonicalBytes(lib, d));
    assert lib.utf8(CanonicalBytes(lib, d)) == Some(lib.dumps(d));
    assert lib.loads(lib.dumps(d)) == Some(d);
  }

  lemma RawBack(lib: Library, d: Dict, bytes: seq<byte>, sig: seq<byte>)
    requires DecodePayload(lib, Segment(bytes)) == Some(d) && bytes != [] && |sig| == 32
    ensures DecodeRaw(lib, Segment(bytes) + "." + Segment(sig)) == Some((d, sig))
  {
    SegmentBack(bytes);
    SegmentBack(sig);
    PartitionAt(Segment(bytes), Segment(sig));
  }

  /** The verifier reads back the payload and the signature the issuer wrote. */
  lemma IssuedDecodes(lib: Library, nbf: Date, exp: Date, secret: seq<byte>)
    requires Faithful(lib)
    ensures var d := IssuedDict(nbf, exp); var sig := lib.sign(CanonicalBytes(lib, d), secret);
      && var parts := Partition(BuildKey(lib, nbf, exp, secret));
      parts.0 == "v2" && parts.2 != "" && DecodeRaw(lib, parts.2) == Some((d, sig))
  {
    var bytes := CanonicalBytes(lib, IssuedDict(nbf, exp));
    var sig := lib.sign(bytes, secret);
    PayloadBack(lib, nbf, exp);
    RawBack(lib, IssuedDict(nbf, exp), bytes, sig);
    var body := Segment(bytes) + "." + Segment(sig);
    assert BuildKey(lib, nbf, exp, secret) == "v2" + "." + body;
    PartitionAt("v2", body);
  }

  lemma IssuedFields(lib: Library, nbf: Date, exp: Date)
    requires Faithful(lib) && ValidDate(nbf) && ValidDate(exp)
    ensures ExtractFields(lib, IssuedDict(nbf, exp)) == Some(Fields(nbf, exp, "interactive"))
  {
    IsoRoundTrip(nbf);
    IsoRoundTrip(exp);
  }

  /** An issued key: invalid before nbf, expired after exp, valid between -- and with nbf after
      exp never valid. */
  lemma IssuedKeyVerdict(lib: Library, nbf: Date, exp: Date, secret: seq<byte>, today: Date)
    requires Faithful(lib) && ValidDate(nbf) && ValidDate(exp)
    ensures Verify(lib, BuildKey(lib, nbf, exp, secret), secret, Some(today))
         == if Before(today, nbf) then INVALID
            else Verdict(if Before(exp, today) then Expired else Valid, Some(exp), Some("interactive"))
  {
    IssuedDecodes(lib, nbf, exp, secret);
    IssuedFields(lib, nbf, exp);
  }

  /** A key issued under another secret verifies only if the two signatures coincide. */
  lemma OtherSecret(lib: Library, nbf: Date, exp: Date, issuer: seq<byte>, secret: seq<byte>, today: Date)
    requires Faithful(lib) && ValidDate(nbf) && ValidDate(exp)
    ensures var bytes := CanonicalBytes(lib, IssuedDict(nbf, exp));
      var v := Verify(lib, BuildKey(lib, nbf, exp, issuer), secret, Some(today));
      v.status != Invalid <==> lib.sign(bytes, issuer) == lib.sign(bytes, secret) && !Before(today, nbf)
  {
    IssuedDecodes(lib, nbf, exp, issuer);
    IssuedFields(lib, nbf, exp);
  }

  /** The verdict on any key with a matching signature, whoever made it, by the members of its
      payload: invalid unless `v` equals 2, the other three are texts and both dates read; then by
      the dates, with the payload's own expiry and licensee. */
  lemma SignedKeyVerdict(lib: Library, p: string, q: string, secret: seq<byte>, today: Date)
    requires Faithful(lib) && p != "" && q != "" && '.' !in p && DecodePayload(lib, p).Some?
    requires DecodeSegment(q) == Some(lib.sign(CanonicalBytes(lib, DecodePayload(lib, p).value), secret))
    ensures var d, verdict := DecodePayload(lib, p).value, Verify(lib, "v2." + p + "." + q, secret, Some(today));
      var two := "v" in d && (d["v"] == Num(2) || (d["v"].Other? && d["v"].equalsTwo));
      var texts := "nbf" in d && d["nbf"].Str? && "exp" in d && d["exp"].Str? && "lic" in d && d["lic"].Str?;
      if two && texts && lib.fromIso(d["nbf"].s).Some? && lib.fromIso(d["exp"].s).Some? then
        var nbf, exp := lib.fromIso(d["nbf"].s).value, lib.fromIso(d["exp"].s).value;
        verdict == if Before(today, nbf) then Verdict(Invalid, None, None)
                   else Verdict(if Before(exp, today) then Expired else Valid, Some(exp), Some(d["lic"].s))
      else verdict == Verdict(Invalid, None, None)
  {
    hide Decode, Ascii, Repad;
    assert "v2." + p + "." + q == "v2" + "." + (p + "." + q);
    PartitionAt("v2", p + "." + q);
    PartitionAt(p, q);
  }

  /** Nothing is accepted, and no expiry or licensee is reported, without a signature that
      matches the canonical bytes of the payload in the key. */
  lemma OnlySignedAccepted(lib: Library, key: string, secret: seq<byte>, today: Option<Date>)
    requires Faithful(lib) && Verify(lib, key, secret, today) != INVALID
    ensures today.Some?
    ensures exists p: string, q: string ::
      && key == "v2." + p + "." + q
      && DecodePayload(lib, p).Some?
      && DecodeSegment(q) == Some(lib.sign(CanonicalBytes(lib, DecodePayload(lib, p).value), secret))
  {
    var parts := Partition(key);
    var body := Partition(parts.2);
    assert key == "v2" + "." + (body.0 + "." + body.2);
    assert key == "v2." + body.0 + "." + body.2;
  }
}

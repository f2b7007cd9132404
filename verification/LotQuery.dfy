/** The filtered, keyset-paginated lot catalogue and its opaque cursor. */
module LotQuery {
  import opened Prelude
  import opened IsoText
  import opened Base64

  // ---------------------------------------------------------------------
  // The cursor
  // ---------------------------------------------------------------------

  /** The keyset position: the date_create column's text and the lot id. */
  datatype Key = Key(text: string, id: int)

  function Payload(d: Date, id: int): (s: string)
    ensures Ascii(s)
  {
    AsciiDate(d);
    AsciiDecimal(id);
    IsoMidnight(d) + ":" + Decimal(id)
  }

  lemma AsciiDate(d: Date)
    ensures Ascii(IsoMidnight(d))
  {
    assert Ascii(Digits(d.year, 4)) && Ascii(Digits(d.month, 2)) && Ascii(Digits(d.day, 2));
    assert Ascii(IsoDate(d));
  }

  lemma AsciiDecimal(id: int)
    ensures Ascii(Decimal(id)) && ':' !in Decimal(id)
  {
  }

  function EncodeCursor(d: Date, id: int): string { Encode(AsciiBytes(Payload(d, id))) }

  /** str.rfind(":"). */
  function LastColon(s: string): Option<nat> {
    if s == [] then None
    else if s[|s| - 1] == ':' then Some(|s| - 1)
    else LastColon(s[..|s| - 1])
  }

  function DecodeCursor(cursor: string, utf8: seq<byte> -> Option<string>): Option<Key> {
    var bytes := Decode(cursor);
    if bytes.None? then None
    else
      var payload := utf8(bytes.value);
      if payload.None? then None else SplitPayload(payload.value)
  }

  function SplitPayload(payload: string): Option<Key> {
    LastColonInside(payload);
    var sep := LastColon(payload);
    if sep.None? then None
    else
      var id := ParseInt(payload[sep.value + 1..]);
      if id.None? then None else Some(Key(payload[..sep.value], id.value))
  }

  lemma {:induction false} LastColonInside(s: string)
    ensures LastColon(s).Some? ==> LastColon(s).value < |s|
  {
    if s != [] { LastColonInside(s[..|s| - 1]); }
  }

  lemma {:induction false} LastColonAt(front: string, back: string)
    requires ':' !in back
    ensures LastColon(front + ":" + back) == Some(|front|)
  {
    var s := front + ":" + back;
    if back != [] {
      assert s[|s| - 1] == back[|back| - 1];
      assert s[..|s| - 1] == front + ":" + back[..|back| - 1];
      LastColonAt(front, back[..|back| - 1]);
    }
  }

  lemma {:induction false} NoColon(s: string)
    requires ':' !in s
    ensures LastColon(s).None?
  {
    if s != [] { NoColon(s[..|s| - 1]); }
  }

  /** A payload of any origin splits at its last colon, and needs one and an integer behind it. */
  lemma SplitAtLastColon(front: string, back: string)
    requires ':' !in back
    ensures SplitPayload(back) == None
    ensures SplitPayload(front + ":" + back)
         == match ParseInt(back) case None => None case Some(id) => Some(Key(front, id))
  {
    hide ParseInt;
    NoColon(back);
    LastColonAt(front, back);
    var s := front + ":" + back;
    assert s[..|front|] == front && s[|front| + 1..] == back;
  }

  /** The cursor comes back as the column's own text and the id, for every date and integer id. */
  lemma CursorRoundTrip(d: Date, id: int, utf8: seq<byte> -> Option<string>)
    requires ReadsAscii(utf8)
    ensures DecodeCursor(EncodeCursor(d, id), utf8) == Some(Key(IsoMidnight(d), id))
  {
    var front, back := IsoMidnight(d), Decimal(id);
    DecodeEncode(AsciiBytes(Payload(d, id)));
    AsciiDecimal(id);
    LastColonAt(front, back);
    var s := Payload(d, id);
    assert s[..|front|] == front && s[|front| + 1..] == back;
    DecimalRoundTrip(id);
  }

  // ---------------------------------------------------------------------
  // Lots, filters and what a filter means
  // ---------------------------------------------------------------------

  /** A row: `text` is the date_create column as stored, `created` the date read back from it. */
  datatype Lot = Lot(id: int, text: string, created: Date, active: bool, region: string, area: Option<int>,
                     status: string, subject: Option<int>)

  datatype Filters = Filters(regions: seq<int>, names: seq<string>, areaMin: Option<real>, areaMax: Option<real>,
                             status: Option<string>, fts: Option<string>, cutoff: bool, subscribedOnly: bool)

  /** One state of the database: the lots, and the day each subject was subscribed. */
  datatype Snapshot = Snapshot(lots: seq<Lot>, subs: map<int, Date>)

  /** int(Decimal): truncation toward zero. */
  function Trunc(x: real): (n: int)
    ensures x >= 0.0 ==> n as real <= x < n as real + 1.0
    ensures x <= 0.0 ==> n as real - 1.0 < x <= n as real
  {
    if x >= 0.0 then x.Floor else -(-x).Floor
  }

  /** The region column holds text: the codes are compared by their decimal texts. */
  predicate InRegions(regions: seq<int>, lot: Lot) {
    exists i :: 0 <= i < |regions| && Decimal(regions[i]) == lot.region
  }

  predicate InScope(f: Filters, lot: Lot) {
    (f.regions != [] ==> InRegions(f.regions, lot)) && (f.names != [] ==> lot.region in f.names)
  }

  predicate InAreaRange(f: Filters, lot: Lot) {
    && (f.areaMin.Some? ==> lot.area.Some? && lot.area.value >= Trunc(f.areaMin.value))
    && (f.areaMax.Some? ==> lot.area.Some? && lot.area.value <= Trunc(f.areaMax.value))
  }

  predicate Subscribed(f: Filters, lot: Lot, subs: map<int, Date>) {
    && (f.cutoff ==> lot.subject.Some? && lot.subject.value in subs ==> !Before(lot.created, subs[lot.subject.value]))
    && (f.subscribedOnly ==> lot.subject.Some? ==> lot.subject.value in subs)
  }

  predicate Matches(f: Filters, lot: Lot, subs: map<int, Date>) {
    && lot.active
    && InScope(f, lot)
    && InAreaRange(f, lot)
    && (f.status.Some? ==> lot.status == f.status.value)
    && Subscribed(f, lot, subs)
  }

  function KeyOf(lot: Lot): Key { Key(lot.text, lot.id) }

  /** The parser stores midnight UTC, so the column's text is what isoformat() prints. */
  predicate StoredByParser(lot: Lot) { ValidDate(lot.created) && lot.text == IsoMidnight(lot.created) }

  predicate KeyLess(a: Key, b: Key) {
    LexLess(a.text, b.text) || (a.text == b.text && a.id < b.id)
  }

  predicate Below(lot: Lot, cursor: Option<Key>) { cursor.Some? ==> KeyLess(KeyOf(lot), cursor.value) }

  /** What the keyset order means: newer date first, then larger id. */
  lemma KeyOrderIsDateOrder(a: Lot, b: Lot)
    requires StoredByParser(a) && StoredByParser(b)
    ensures KeyLess(KeyOf(a), KeyOf(b)) <==> Before(a.created, b.created) || (a.created == b.created && a.id < b.id)
  {
    IsoOrderIsDateOrder(a.created, b.created);
  }

  lemma KeyTransitive(a: Key, b: Key, c: Key)
    requires KeyLess(a, b) && KeyLess(b, c)
    ensures KeyLess(a, c)
  {
    if LexLess(a.text, b.text) && LexLess(b.text, c.text) { LexTransitive(a.text, b.text, c.text); }
  }

  lemma KeyIrreflexive(a: Key)
    ensures !KeyLess(a, a)
  {
    LexIrreflexive(a.text);
  }

  lemma KeyTotal(a: Key, b: Key)
    ensures a == b || KeyLess(a, b) || KeyLess(b, a)
  {
    LexTotal(a.text, b.text);
  }

  // ---------------------------------------------------------------------
  // The WHERE clause: conditions with positional parameters
  // ---------------------------------------------------------------------

  datatype Param = Text(text: string) | Num(num: int)

  datatype Condition =
    | IsActive
    | RegionIn(n: nat)
    | AreaAtLeast
    | AreaAtMost
    | StatusIs
    | CutoffPassed
    | SubscribedOrNone
    | KeysetBelow

  function Arity(c: Condition): nat {
    match c
    case RegionIn(n) => n
    case AreaAtLeast => 1
    case AreaAtMost => 1
    case StatusIs => 1
    case KeysetBelow => 3
    case _ => 0
  }

  /** One condition with its own parameters in the place of its question marks. */
  predicate Holds(c: Condition, args: seq<Param>, lot: Lot, subs: map<int, Date>)
    requires |args| == Arity(c)
  {
    match c
    case IsActive => lot.active
    case RegionIn(_) => exists i :: 0 <= i < |args| && args[i] == Text(lot.region)
    case AreaAtLeast => args[0].Num? && lot.area.Some? && lot.area.value >= args[0].num
    case AreaAtMost => args[0].Num? && lot.area.Some? && lot.area.value <= args[0].num
    case StatusIs => args[0] == Text(lot.status)
    case CutoffPassed => lot.subject.Some? && lot.subject.value in subs ==> !Before(lot.created, subs[lot.subject.value])
    case SubscribedOrNone => lot.subject.Some? ==> lot.subject.value in subs
    case KeysetBelow =>
      args[0].Text? && args[2].Num?
      && (LexLess(lot.text, args[0].text) || (Text(lot.text) == args[1] && lot.id < args[2].num))
  }

  datatype Where = Where(conditions: seq<Condition>, params: seq<Param>)

  function Placeholders(cs: seq<Condition>): nat {
    if cs == [] then 0 else Placeholders(cs[..|cs| - 1]) + Arity(cs[|cs| - 1])
  }

  /** The conditions joined by AND, the parameters bound from left to right. */
  predicate Accepts(cs: seq<Condition>, params: seq<Param>, lot: Lot, subs: map<int, Date>)
    requires |params| == Placeholders(cs)
  {
    cs == [] ||
    var at := Placeholders(cs[..|cs| - 1]);
    Accepts(cs[..|cs| - 1], params[..at], lot, subs) && Holds(cs[|cs| - 1], params[at..], lot, subs)
  }

  ghost predicate Bound(w: Where) { |w.params| == Placeholders(w.conditions) }

  /** conditions.append(c); params.extend(args). */
  method Append(w: Where, c: Condition, args: seq<Param>) returns (r: Where)
    requires Bound(w) && |args| == Arity(c)
    ensures Bound(r)
    ensures forall lot, subs :: Accepts(r.conditions, r.params, lot, subs)
              <==> Accepts(w.conditions, w.params, lot, subs) && Holds(c, args, lot, subs)
  {
    r := Where(w.conditions + [c], w.params + args);
    assert r.conditions[..|w.conditions|] == w.conditions;
    assert r.params[..|w.params|] == w.params && r.params[|w.params|..] == args;
  }

  function RegionTexts(regions: seq<int>): seq<Param> { seq(|regions|, i requires 0 <= i < |regions| => Text(Decimal(regions[i]))) }

  function NameTexts(names: seq<string>): seq<Param> { seq(|names|, i requires 0 <= i < |names| => Text(names[i])) }

  lemma RegionListMeans(f: Filters, lot: Lot, subs: map<int, Date>)
    ensures Holds(RegionIn(|f.regions|), RegionTexts(f.regions), lot, subs) <==> InRegions(f.regions, lot)
    ensures Holds(RegionIn(|f.names|), NameTexts(f.names), lot, subs) <==> lot.region in f.names
  {
    var codes, names := RegionTexts(f.regions), NameTexts(f.names);
    if InRegions(f.regions, lot) {
      var i :| 0 <= i < |f.regions| && Decimal(f.regions[i]) == lot.region;
      assert codes[i] == Text(lot.region);
    }
    if lot.region in f.names {
      var i :| 0 <= i < |f.names| && f.names[i] == lot.region;
      assert names[i] == Text(lot.region);
    }
  }

  method RestrictScope(w: Where, f: Filters) returns (r: Where)
    requires Bound(w)
    ensures Bound(r)
    ensures forall lot, subs :: Accepts(r.conditions, r.params, lot, subs)
              <==> Accepts(w.conditions, w.params, lot, subs) && InScope(f, lot)
  {
    forall lot, subs {
      RegionListMeans(f, lot, subs);
    }
    r := w;
    if f.regions != [] {
      r := Append(r, RegionIn(|f.regions|), RegionTexts(f.regions));
    }
    if f.names != [] {
      r := Append(r, RegionIn(|f.names|), NameTexts(f.names));
    }
  }

  method RestrictArea(w: Where, f: Filters) returns (r: Where)
    requires Bound(w)
    ensures Bound(r)
    ensures forall lot, subs :: Accepts(r.conditions, r.params, lot, subs)
              <==> Accepts(w.conditions, w.params, lot, subs) && InAreaRange(f, lot)
  {
    r := w;
    if f.areaMin.Some? {
      r := Append(r, AreaAtLeast, [Num(Trunc(f.areaMin.value))]);
    }
    if f.areaMax.Some? {
      r := Append(r, AreaAtMost, [Num(Trunc(f.areaMax.value))]);
    }
  }

  method RestrictSubscription(w: Where, f: Filters) returns (r: Where)
    requires Bound(w)
    ensures Bound(r)
    ensures forall lot, subs :: Accepts(r.conditions, r.params, lot, subs)
              <==> Accepts(w.conditions, w.params, lot, subs) && Subscribed(f, lot, subs)
  {
    r := w;
    if f.cutoff {
      r := Append(r, CutoffPassed, []);
    }
    if f.subscribedOnly {
      r := Append(r, SubscribedOrNone, []);
    }
  }

  /** Every question mark gets its own parameter: the clause accepts a lot exactly when the
      filter matches it. */
  method BuildWhere(f: Filters) returns (w: Where)
    ensures Bound(w)
    ensures forall lot, subs :: Accepts(w.conditions, w.params, lot, subs) <==> Matches(f, lot, subs)
  {
    w := Append(Where([], []), IsActive, []);
    w := RestrictScope(w, f);
    w := RestrictArea(w, f);
    if f.status.Some? {
      w := Append(w, StatusIs, [Text(f.status.value)]);
    }
    w := RestrictSubscription(w, f);
  }
}

/** The encodings of the standards, and that the parser undoes them. */
module LldpEncoding {
  import opened Cyclic
  import opened RawRecord
  import opened LldpModel

  /** The CEE control TLV, of which nothing is read. */
  const CEE_CONTROL: seq<Byte> := [0, 0, 0, 0, 0, 0, 0, 0, 0, 0, 0, 0]

  function Octet(x: nat): Byte
    requires x < 256
  {
    x as Byte
  }

  function EncodeWord(x: nat): (bs: seq<Byte>)
    requires x < 0x1_0000
    ensures |bs| == 2
  {
    [Octet(x / 256), Octet(x % 256)]
  }

  function Tlv(t: nat, value: seq<Byte>): (bs: seq<Byte>)
    requires t < 128 && |value| < 512
    ensures |bs| == 2 + |value|
  {
    EncodeWord(t * 512 + |value|) + value
  }

  function OrgHead(oui: nat, subtype: nat): (bs: seq<Byte>)
    requires oui < 0x100_0000 && subtype < 256
    ensures |bs| == 4
  {
    [Octet(oui / 0x1_0000), Octet(oui / 256 % 256), Octet(oui % 256), Octet(subtype)]
  }

  function Octets(xs: seq<nat>): (bs: seq<Byte>)
    requires forall k :: 0 <= k < |xs| ==> xs[k] < 256
    ensures |bs| == |xs| && forall k :: 0 <= k < |bs| ==> bs[k] as int == xs[k]
  {
    seq(|xs|, (k: nat) requires k < |xs| => Octet(xs[k]))
  }

  function Nibbles(p: seq<nat>): (bs: seq<Byte>)
    requires |p| == MAX_TC && forall k :: 0 <= k < MAX_TC ==> p[k] < 16
    ensures |bs| == 4
  {
    [Octet(p[0] * 16 + p[1]), Octet(p[2] * 16 + p[3]), Octet(p[4] * 16 + p[5]), Octet(p[6] * 16 + p[7])]
  }

  predicate Below(xs: seq<nat>, bound: nat) {
    forall k :: 0 <= k < |xs| ==> xs[k] < bound
  }

  predicate EtsOk(e: Ets) {
    e.Valid() && e.willing < 2 && e.cbs < 2 && e.maxtcs < 8
    && Below(e.prio, 8) && Below(e.bw, 256) && Below(e.tsa, 256)
  }

  predicate PfcOk(p: Pfc) {
    p.willing < 2 && p.mbc < 2 && p.cap < 16 && p.enable < 256
  }

  predicate AppOk(a: App) {
    a.priority < 8 && a.selector < 8 && a.protocol < 0x1_0000
  }

  // ----- What a TLV can say -----

  /** A CEE feature: its type, its octet of flags and its contents. */
  datatype CeeFeature =
    | Pg(willing: bool, prio: seq<nat>, bw: seq<nat>, maxtcs: nat)
    | PfcFeature(willing: bool, enable: nat, cap: nat)
    | Apps(apps: seq<CeeAppEntry>)

  /** An entry of the CEE table; `oui` says in 22 bits whose protocol it is. */
  datatype CeeAppEntry = CeeAppEntry(protocol: nat, selector: nat, oui: nat, prioMap: nat)

  /** One TLV of an LLDPDU. */
  datatype Setting =
    | EtsConfig(ets: Ets)
    | EtsRecommended(ets: Ets)
    | PfcConfig(pfc: Pfc)
    | AppTable(apps: seq<App>)
    | Cee(features: seq<CeeFeature>)
    | Other(t: nat, value: seq<Byte>)

  predicate CeeAppOk(a: CeeAppEntry) {
    a.protocol < 0x1_0000 && a.selector < 4 && a.oui < 0x40_0000 && a.prioMap < 256
  }

  predicate FeatureOk(f: CeeFeature) {
    match f
    case Pg(_, prio, bw, maxtcs) => |prio| == |bw| == MAX_TC && Below(prio, 16) && Below(bw, 256) && maxtcs < 256
    case PfcFeature(_, enable, cap) => enable < 256 && cap < 256
    case Apps(apps) =>
      |apps| <= 40 && forall k :: 0 <= k < |apps| ==> CeeAppOk(apps[k])
  }

  /** Other TLVs do not end the LLDPDU, and are of no organisation the parser knows or of no sub-type it knows. */
  predicate SettingOk(s: Setting) {
    match s
    case EtsConfig(e) => EtsOk(e)
    case EtsRecommended(e) => EtsOk(e)
    case PfcConfig(p) => PfcOk(p)
    case AppTable(apps) => |apps| <= 168 && forall k :: 0 <= k < |apps| ==> AppOk(apps[k])
    case Cee(fs) =>
      && |fs| <= 3 && (forall k :: 0 <= k < |fs| ==> FeatureOk(fs[k]))
      && |EncodeFeatures(fs)| < 512 - 16
    case Other(t, value) =>
      && 0 < t < 128 && |value| < 512
      && (t == TYPE_ORG ==>
            && |value| >= 4
            && !(value[..3] == [0x00, 0x80, 0xC2] && 9 <= value[3] as int <= 12)
            && !(value[..3] == [0x00, 0x1B, 0x21] && value[3] as int == 2))
  }

  // ----- Encodings -----

  function EtsInfo(e: Ets): (bs: seq<Byte>)
    requires EtsOk(e)
    ensures |bs| == 21
  {
    [Octet(e.willing * 128 + e.cbs * 64 + e.maxtcs)] + Nibbles(e.prio) + Octets(e.bw) + Octets(e.tsa)
  }

  function AppBytes(a: App): (bs: seq<Byte>)
    requires AppOk(a)
    ensures |bs| == 3
  {
    [Octet(a.priority * 32 + a.selector)] + EncodeWord(a.protocol)
  }

  function AppInfo(apps: seq<App>): (bs: seq<Byte>)
    requires forall k :: 0 <= k < |apps| ==> AppOk(apps[k])
    ensures |bs| == 3 * |apps|
  {
    if |apps| == 0 then [] else AppInfo(apps[..|apps| - 1]) + AppBytes(apps[|apps| - 1])
  }

  function CeeAppBytes(a: CeeAppEntry): (bs: seq<Byte>)
    requires CeeAppOk(a)
    ensures |bs| == 6
  {
    EncodeWord(a.protocol) + [Octet(a.oui / 0x1_0000 * 4 + a.selector)] + EncodeWord(a.oui % 0x1_0000)
    + [Octet(a.prioMap)]
  }

  function CeeAppInfo(apps: seq<CeeAppEntry>): (bs: seq<Byte>)
    requires forall k :: 0 <= k < |apps| ==> CeeAppOk(apps[k])
    ensures |bs| == 6 * |apps|
  {
    if |apps| == 0 then [] else CeeAppInfo(apps[..|apps| - 1]) + CeeAppBytes(apps[|apps| - 1])
  }

  /** Operating and maximum version, flags, sub-type, then the contents. */
  function FeatureBytes(f: CeeFeature): (bs: seq<Byte>)
    requires FeatureOk(f)
    ensures 2 <= |bs| < 514
  {
    match f
    case Pg(w, prio, bw, maxtcs) =>
      Tlv(CEE_PG, [0, 0, if w then 0xC0 else 0x80, 0] + Nibbles(prio) + Octets(bw) + [Octet(maxtcs)])
    case PfcFeature(w, enable, cap) =>
      Tlv(CEE_PFC, [0, 0, if w then 0xC0 else 0x80, 0] + [Octet(enable), Octet(cap)])
    case Apps(apps) => Tlv(CEE_APP, [0, 0, 0x80, 0] + CeeAppInfo(apps))
  }

  function EncodeFeatures(fs: seq<CeeFeature>): seq<Byte>
    requires forall k :: 0 <= k < |fs| ==> FeatureOk(fs[k])
  {
    if |fs| == 0 then [] else FeatureBytes(fs[0]) + EncodeFeatures(fs[1..])
  }

  function EncodeSetting(s: Setting): (bs: seq<Byte>)
    requires SettingOk(s)
    ensures 2 <= |bs| < 514
  {
    match s
    case EtsConfig(e) => Tlv(TYPE_ORG, OrgHead(IEEE_OUI, ETS_CFG) + EtsInfo(e))
    case EtsRecommended(e) => Tlv(TYPE_ORG, OrgHead(IEEE_OUI, ETS_REC) + EtsInfo(e))
    case PfcConfig(p) =>
      Tlv(TYPE_ORG, OrgHead(IEEE_OUI, PFC_CFG) + [Octet(p.willing * 128 + p.mbc * 64 + p.cap), Octet(p.enable)])
    case AppTable(apps) => Tlv(TYPE_ORG, OrgHead(IEEE_OUI, APP_PRI) + ([0] + AppInfo(apps)))
    case Cee(fs) => Tlv(TYPE_ORG, OrgHead(CEE_OUI, CEE_TYPE) + (CEE_CONTROL + EncodeFeatures(fs)))
    case Other(t, value) => Tlv(t, value)
  }

  function EncodeAll(ss: seq<Setting>): seq<Byte>
    requires forall k :: 0 <= k < |ss| ==> SettingOk(ss[k])
  {
    if |ss| == 0 then [] else EncodeSetting(ss[0]) + EncodeAll(ss[1..])
  }

  // ----- What it means -----

  function Capped<T>(xs: seq<T>): (ys: seq<T>)
    ensures |ys| <= 32 && ys <= xs && (|ys| == 32 || ys == xs)
  {
    if |xs| <= 32 then xs else xs[..32]
  }

  function WithTable(apps: seq<App>, c: Dcbx): Dcbx
    requires c.Valid()
  {
    c.(app := WithApps(c.app, Capped(apps)), numapps := |Capped(apps)|)
  }

  const POWERS := [1, 2, 4, 8, 16, 32, 64, 128]

  /** The lowest priority set in the map, one bit each, and 8 if none is. */
  function LowestPriority(prioMap: nat): (k: nat)
    ensures k <= 8
  {
    if prioMap % 2 == 1 then 0
    else if prioMap / 2 % 2 == 1 then 1
    else if prioMap / 4 % 2 == 1 then 2
    else if prioMap / 8 % 2 == 1 then 3
    else if prioMap / 16 % 2 == 1 then 4
    else if prioMap / 32 % 2 == 1 then 5
    else if prioMap / 64 % 2 == 1 then 6
    else if prioMap / 128 % 2 == 1 then 7
    else 8
  }

  /** The entry in the terms of the IEEE table: the lowest priority set in the map, and the selector. */
  function IeeeTerms(a: CeeAppEntry): App {
    App(LowestPriority(a.prioMap), if a.selector == 0 then 1 else if a.selector == 1 then 2 else a.selector, a.protocol)
  }

  function AllIeeeTerms(apps: seq<CeeAppEntry>): (out: seq<App>)
    ensures |out| == |apps| && forall k :: 0 <= k < |out| ==> out[k] == IeeeTerms(apps[k])
  {
    seq(|apps|, (k: nat) requires k < |apps| => IeeeTerms(apps[k]))
  }

  function ApplyFeature(f: CeeFeature, c: Dcbx): (c': Dcbx)
    requires c.Valid() && FeatureOk(f)
    ensures c'.Valid()
  {
    match f
    case Pg(w, prio, bw, maxtcs) =>
      c.(ets := c.ets.(willing := if w then 1 else c.ets.willing, cbs := 0, maxtcs := maxtcs, prio := prio, bw := bw))
    case PfcFeature(w, enable, cap) =>
      c.(pfc := c.pfc.(willing := if w then 1 else c.pfc.willing, enable := enable, cap := cap))
    case Apps(apps) => WithTable(AllIeeeTerms(apps), c)
  }

  function ApplyFeatures(fs: seq<CeeFeature>, c: Dcbx): (c': Dcbx)
    requires c.Valid() && forall k :: 0 <= k < |fs| ==> FeatureOk(fs[k])
    ensures c'.Valid()
    decreases |fs|
  {
    if |fs| == 0 then c else ApplyFeatures(fs[1..], ApplyFeature(fs[0], c))
  }

  function Apply(s: Setting, c: Dcbx): (c': Dcbx)
    requires c.Valid() && SettingOk(s)
    ensures c'.Valid()
  {
    match s
    case EtsConfig(e) => c.(ets := e)
    case EtsRecommended(e) => c.(rec := c.rec.(prio := e.prio, bw := e.bw, tsa := e.tsa))
    case PfcConfig(p) => c.(pfc := p)
    case AppTable(apps) => WithTable(apps, c)
    case Cee(fs) => ApplyFeatures(fs, c)
    case Other(_, _) => c
  }

  function ApplyAll(ss: seq<Setting>, c: Dcbx): (c': Dcbx)
    requires c.Valid() && forall k :: 0 <= k < |ss| ==> SettingOk(ss[k])
    ensures c'.Valid()
    decreases |ss|
  {
    if |ss| == 0 then c else ApplyAll(ss[1..], Apply(ss[0], c))
  }

  // ----- What the parser makes of a list -----

  /** A CEE TLV after whose features the parser goes on looking for more. */
  predicate Short(s: Setting) {
    s.Cee? && 0 < |s.features| < 3
  }

  predicate LooksLikeFeature(s: Setting) {
    s.Other? && IsFeature(s.t)
  }

  /** The first k TLVs of a list, as far as they look like CEE features, read as such where they stand. */
  function ReadOn(m: Memory, at: nat, k: nat, ss: seq<Setting>, c: Dcbx): (c': Dcbx)
    requires c.Valid() && (forall k :: 0 <= k < |ss| ==> SettingOk(ss[k])) && k <= CEE_MAX_FEATURES
    requires at + 513 * k + 6 + 6 * MAX_APPS <= 4096
    ensures c'.Valid()
    decreases k
  {
    if k == 0 || |ss| == 0 || !LooksLikeFeature(ss[0]) then c
    else ReadOn(m, at + |EncodeSetting(ss[0])|, k - 1, ss[1..], Feature(m, at, c))
  }

  /** The list that stands at `at`, read from left to right: every TLV as what it says, and after a short
      CEE TLV what ReadOn finds. */
  function ReadAll(m: Memory, at: nat, ss: seq<Setting>, c: Dcbx): (c': Dcbx)
    requires c.Valid() && (forall k :: 0 <= k < |ss| ==> SettingOk(ss[k]))
    requires at + |EncodeAll(ss)| <= ETH_HLEN + LLDPDU_SIZE
    ensures c'.Valid()
    decreases |ss|
  {
    if |ss| == 0 then c
    else
      var next := at + |EncodeSetting(ss[0])|;
      var c1 := Apply(ss[0], c);
      var c2 := if Short(ss[0]) then ReadOn(m, next, 3 - |ss[0].features|, ss[1..], c1) else c1;
      ReadAll(m, next, ss[1..], c2)
  }

  /** No short CEE TLV stands directly before a TLV of type 2, 3 or 4. */
  predicate NoneMistaken(ss: seq<Setting>) {
    forall k :: 0 <= k < |ss| - 1 ==> !(Short(ss[k]) && LooksLikeFeature(ss[k + 1]))
  }

  // ----- Reading what was encoded -----

  ghost predicate Placed(m: Memory, at: nat, bs: seq<Byte>) {
    at + |bs| <= 4096 && m[at..at + |bs|] == bs
  }

  lemma PlacedOctet(m: Memory, at: nat, bs: seq<Byte>, k: nat)
    requires Placed(m, at, bs) && k < |bs|
    ensures U8(m, at + k) == bs[k] as int
  {
    assert m[at..at + |bs|][k] == m[at + k];
  }

  lemma PlacedParts(m: Memory, at: nat, a: seq<Byte>, b: seq<Byte>)
    requires Placed(m, at, a + b)
    ensures Placed(m, at, a) && Placed(m, at + |a|, b)
  {
    var n := |a| + |b|;
    assert m[at..at + n][..|a|] == m[at..at + |a|];
    assert m[at..at + n][|a|..] == m[at + |a|..at + n];
    assert (a + b)[..|a|] == a && (a + b)[|a|..] == b;
  }

  lemma PlacedWord(m: Memory, at: nat, x: nat)
    requires x < 0x1_0000 && Placed(m, at, EncodeWord(x))
    ensures Word(m, at) == x
  {
    PlacedOctet(m, at, EncodeWord(x), 0);
    PlacedOctet(m, at, EncodeWord(x), 1);
  }

  lemma PlacedTlv(m: Memory, at: nat, t: nat, value: seq<Byte>)
    requires t < 128 && |value| < 512 && Placed(m, at, Tlv(t, value))
    ensures at + 2 <= 4096 && TypeOf(Word(m, at)) == t && LengthOf(Word(m, at)) == |value|
    ensures Placed(m, at + 2, value)
  {
    PlacedParts(m, at, EncodeWord(t * 512 + |value|), value);
    PlacedWord(m, at, t * 512 + |value|);
  }

  lemma PlacedOctets(m: Memory, at: nat, xs: seq<nat>)
    requires |xs| == MAX_TC && Below(xs, 256) && Placed(m, at, Octets(xs))
    ensures Bytes8(m, at) == xs
  {
    forall k | 0 <= k < MAX_TC ensures Bytes8(m, at)[k] == xs[k] {
      PlacedOctet(m, at, Octets(xs), k);
    }
  }

  lemma NibblePair(m: Memory, i: nat, j: nat, hi: nat, lo: nat, range: nat)
    requires i + 4 <= 4096 && j < 4 && (range == 8 || range == 16) && hi < range && lo < range
    requires U8(m, i + j) == hi * 16 + lo
    ensures PrioAt(m, i, 2 * j, range) == hi && PrioAt(m, i, 2 * j + 1, range) == lo
  {
    hide U8;
    NibbleSplit(hi, lo, range);
    assert (2 * j) / 2 == j == (2 * j + 1) / 2;
  }

  lemma NibbleSplit(hi: nat, lo: nat, range: nat)
    requires (range == 8 || range == 16) && hi < range && lo < range
    ensures (hi * 16 + lo) / 16 % range == hi && (hi * 16 + lo) % range == lo
  {
    assert (hi * 16 + lo) / 16 == hi;
    if range == 8 {
      assert (hi * 16 + lo) % 8 == lo;
    }
  }

  lemma PlacedNibbles(m: Memory, at: nat, p: seq<nat>, range: nat)
    requires |p| == MAX_TC && (range == 8 || range == 16) && Below(p, range) && Placed(m, at, Nibbles(p))
    ensures PrioTable(m, at, range) == p
  {
    hide PrioAt, U8;
    forall j | 0 <= j < 4
      ensures PrioAt(m, at, 2 * j, range) == p[2 * j] && PrioAt(m, at, 2 * j + 1, range) == p[2 * j + 1]
    {
      PlacedOctet(m, at, Nibbles(p), j);
      NibblePair(m, at, j, p[2 * j], p[2 * j + 1], range);
    }
    forall k | 0 <= k < MAX_TC ensures PrioAt(m, at, k, range) == p[k] {
      assert k == 2 * (k / 2) || k == 2 * (k / 2) + 1;
    }
  }

  /** The head of an organisation's TLV. */
  lemma PlacedOrg(m: Memory, at: nat, oui: nat, subtype: nat, info: seq<Byte>)
    requires oui < 0x100_0000 && subtype < 256 && |info| < 508
    requires Placed(m, at, Tlv(TYPE_ORG, OrgHead(oui, subtype) + info))
    ensures at + 6 <= 4096
    ensures TypeOf(Word(m, at)) == TYPE_ORG && LengthOf(Word(m, at)) == 4 + |info|
    ensures 0x1_0000 * U8(m, at + 2) + Word(m, at + 3) == oui && U8(m, at + 5) == subtype
    ensures Placed(m, at + 6, info)
  {
    var head := OrgHead(oui, subtype);
    PlacedTlv(m, at, TYPE_ORG, head + info);
    PlacedParts(m, at + 2, head, info);
    PlacedOctet(m, at + 2, head, 0);
    PlacedOctet(m, at + 2, head, 1);
    PlacedOctet(m, at + 2, head, 2);
    PlacedOctet(m, at + 2, head, 3);
  }

  lemma {:induction false} EtsRead(m: Memory, at: nat, e: Ets, c: Dcbx)
    requires EtsOk(e) && Placed(m, at + 6, EtsInfo(e))
    ensures EtsCfg(m, at, c) == c.(ets := e)
    ensures EtsRec(m, at, c) == c.(rec := c.rec.(prio := e.prio, bw := e.bw, tsa := e.tsa))
  {
    hide PrioTable, Bytes8, U8, Nibbles, Octets;
    var first := [Octet(e.willing * 128 + e.cbs * 64 + e.maxtcs)];
    var a, b, d := Nibbles(e.prio), Octets(e.bw), Octets(e.tsa);
    PlacedParts(m, at + 6, first + a + b, d);
    PlacedParts(m, at + 6, first + a, b);
    PlacedParts(m, at + 6, first, a);
    PlacedOctet(m, at + 6, first, 0);
    PlacedNibbles(m, at + 7, e.prio, 8);
    PlacedOctets(m, at + 11, e.bw);
    PlacedOctets(m, at + 19, e.tsa);
  }

  lemma {:induction false} PfcRead(m: Memory, at: nat, p: Pfc, c: Dcbx)
    requires PfcOk(p) && Placed(m, at + 6, [Octet(p.willing * 128 + p.mbc * 64 + p.cap), Octet(p.enable)])
    ensures PfcCfg(m, at, c) == c.(pfc := p)
  {
    var info := [Octet(p.willing * 128 + p.mbc * 64 + p.cap), Octet(p.enable)];
    PlacedOctet(m, at + 6, info, 0);
    PlacedOctet(m, at + 6, info, 1);
  }

  lemma {:induction false} AppRead(m: Memory, i: nat, a: App)
    requires AppOk(a) && Placed(m, i, AppBytes(a))
    ensures AppAt(m, i) == a
  {
    PlacedParts(m, i, [Octet(a.priority * 32 + a.selector)], EncodeWord(a.protocol));
    PlacedOctet(m, i, [Octet(a.priority * 32 + a.selector)], 0);
    PlacedWord(m, i + 1, a.protocol);
  }

  lemma {:induction false} AppsRead(m: Memory, i: nat, apps: seq<App>, k: nat)
    requires (forall k :: 0 <= k < |apps| ==> AppOk(apps[k])) && Placed(m, i, AppInfo(apps)) && k < |apps|
    ensures i + 3 * k + 3 <= 4096 && AppAt(m, i + 3 * k) == apps[k]
    decreases |apps|
  {
    hide AppBytes, AppAt;
    var n := |apps| - 1;
    PlacedParts(m, i, AppInfo(apps[..n]), AppBytes(apps[n]));
    if k < n {
      AppsRead(m, i, apps[..n], k);
    } else {
      AppRead(m, i + 3 * n, apps[n]);
    }
  }

  /** The count is exact up to the table's size. */
  lemma AppCountExact(k: nat)
    requires k <= 168
    ensures AppCount(AppLength(5 + 3 * k)) == if k <= 32 then k else 32
  {
  }

  /** Where the last entry read from an application TLV at `at` ends. */
  function AppsEnd(m: Memory, at: nat): nat
    requires at + 1 < 4096
  {
    at + 7 + 3 * AppCount(AppLength(LengthOf(Word(m, at))))
  }

  /** What is read from an application TLV of any length: with k whole entries and r octets more, k entries
      or, if r is 2, one entry more, whose last octet is the first one behind the TLV.  A TLV too short for
      its fixed part is read as a full table.  In no other case is anything read past the end. */
  lemma {:induction false} AppTlvReach(m: Memory, at: nat, c: Dcbx)
    requires at + 7 + 3 * MAX_APPS <= 4096 && c.Valid()
    ensures var l, n := LengthOf(Word(m, at)), IeeeApp(m, at, c).numapps;
            && (l < 5 ==> n == 32 && AppsEnd(m, at) == at + 103)
            && (l >= 5 ==>
                  var k, r := (l - 5) / 3, (l - 5) % 3;
                  && n == (if k >= 32 then 32 else if r == 2 then k + 1 else k)
                  && (AppsEnd(m, at) > at + 2 + l <==> r == 2 && k < 32)
                  && (AppsEnd(m, at) > at + 2 + l ==> AppsEnd(m, at) == at + 2 + l + 1))
  {
    AppCountOf(LengthOf(Word(m, at)));
    hide Word, AppCount, AppLength, LengthOf, AppsAt, WithApps;
  }

  lemma AppCountOf(l: nat)
    requires l < 512
    ensures l < 5 ==> AppCount(AppLength(l)) == MAX_APPS
    ensures l >= 5 ==>
              var k, r := (l - 5) / 3, (l - 5) % 3;
              AppCount(AppLength(l)) == (if k >= MAX_APPS then MAX_APPS else if r == 2 then k + 1 else k)
  {
  }

  lemma {:induction false} AppTableRead(m: Memory, at: nat, apps: seq<App>, c: Dcbx)
    requires SettingOk(AppTable(apps)) && c.Valid() && at + 7 + 3 * MAX_APPS <= 4096
    requires Placed(m, at + 7, AppInfo(apps)) && LengthOf(Word(m, at)) == 5 + 3 * |apps|
    ensures IeeeApp(m, at, c) == WithTable(apps, c)
  {
    hide AppAt, AppInfo, WithApps, AppCount, Word;
    AppCountExact(|apps|);
    var n := |Capped(apps)|;
    forall k | 0 <= k < n ensures AppsAt(m, at + 7, n)[k] == Capped(apps)[k] {
      AppsRead(m, at + 7, apps, k);
    }
    assert AppsAt(m, at + 7, n) == Capped(apps);
  }

  // ----- CEE features -----

  lemma BitMeans(x: nat, k: nat)
    requires k < 8
    ensures HasBit(x, k) <==> x / POWERS[k] % 2 == 1
  {
    if k > 0 {
      BitMeans(x / 2, k - 1);
      assert x / 2 / POWERS[k - 1] == x / POWERS[k];
    }
  }

  lemma BelowLowest(x: nat, i: nat)
    requires i < LowestPriority(x)
    ensures x / POWERS[i] % 2 == 0
  {
  }

  lemma AtLowest(x: nat)
    requires LowestPriority(x) < 8
    ensures x / POWERS[LowestPriority(x)] % 2 == 1
  {
  }

  /** The scan of the parser finds the lowest priority. */
  lemma {:induction false} FirstBitIsLowest(x: nat, up: nat)
    requires up <= LowestPriority(x)
    ensures FirstBit(x, up) == LowestPriority(x)
    decreases 8 - up
  {
    hide LowestPriority, HasBit;
    if up < 8 {
      BitMeans(x, up);
      if up < LowestPriority(x) {
        BelowLowest(x, up);
        FirstBitIsLowest(x, up + 1);
      } else {
        AtLowest(x);
      }
    }
  }

  lemma {:induction false} LowBitsClear(x: nat, k: nat)
    requires k < 8 && forall i :: 0 <= i < k ==> x / POWERS[i] % 2 == 0
    ensures x % POWERS[k] == 0
  {
    if k > 0 {
      LowBitsClear(x, k - 1);
      var p := POWERS[k - 1];
      assert POWERS[k] == 2 * p;
      Halved(x, p);
    }
  }

  lemma Halved(x: nat, p: nat)
    requires p > 0 && x % p == 0 && x / p % 2 == 0
    ensures x % (2 * p) == 0
  {
    var q := x / p / 2;
    assert x == (x / p) * p && x / p == 2 * q;
    assert x == q * (2 * p);
    DivModUnique(x, q, 0, 2 * p);
  }

  /** The priority of a map: the map is an odd multiple of that power of two and of no other, and only an empty
      map has none. */
  lemma {:induction false} PriorityOfMap(x: nat, k: nat)
    requires x < 256 && k < 8
    ensures FirstBit(x, 0) == k <==> x % POWERS[k] == 0 && x / POWERS[k] % 2 == 1
    ensures FirstBit(x, 0) == 8 <==> x == 0
  {
    FirstBitIsLowest(x, 0);
    var l := LowestPriority(x);
    forall i | 0 <= i < l ensures x / POWERS[i] % 2 == 0 {
      BelowLowest(x, i);
    }
    if l < 8 {
      AtLowest(x);
      LowBitsClear(x, l);
      if l < k {
        OddMultipleIsOne(x, l, k);
      }
    } else {
      LowBitsClear(x, 7);
    }
  }

  lemma OddMultiple(x: nat, p: nat)
    requires p > 0
    ensures x % p == 0 && x / p % 2 == 1 <==> x % (2 * p) == p
  {
    var q, r := x / (2 * p), x % (2 * p);
    assert x == q * (2 * p) + r == (2 * q) * p + r;
    if r < p {
      DivModUnique(x, 2 * q, r, p);
    } else {
      assert x == (2 * q + 1) * p + (r - p);
      DivModUnique(x, 2 * q + 1, r - p, p);
    }
  }

  /** The same for each priority. */
  lemma {:induction false} PriorityByOctet(x: nat)
    requires x < 256
    ensures FirstBit(x, 0) == 0 <==> x % 2 == 1
    ensures FirstBit(x, 0) == 1 <==> x % 4 == 2
    ensures FirstBit(x, 0) == 2 <==> x % 8 == 4
    ensures FirstBit(x, 0) == 3 <==> x % 16 == 8
    ensures FirstBit(x, 0) == 4 <==> x % 32 == 16
    ensures FirstBit(x, 0) == 5 <==> x % 64 == 32
    ensures FirstBit(x, 0) == 6 <==> x % 128 == 64
    ensures FirstBit(x, 0) == 7 <==> x == 128
    ensures FirstBit(x, 0) == 8 <==> x == 0
  {
    hide FirstBit;
    OneOctet(x, 0, 1);
    OneOctet(x, 1, 2);
    OneOctet(x, 2, 4);
    OneOctet(x, 3, 8);
    OneOctet(x, 4, 16);
    OneOctet(x, 5, 32);
    OneOctet(x, 6, 64);
    OneOctet(x, 7, 128);
    PriorityOfMap(x, 0);
  }

  lemma OneOctet(x: nat, k: nat, p: nat)
    requires x < 256 && k < 8 && p == POWERS[k]
    ensures FirstBit(x, 0) == k <==> x % (2 * p) == p
  {
    PriorityOfMap(x, k);
    OddMultiple(x, p);
  }

  lemma {:induction false} OddMultipleIsOne(x: nat, l: nat, k: nat)
    requires l < k < 8 && x / POWERS[l] % 2 == 1
    ensures x % POWERS[k] != 0
    decreases k
  {
    if x % POWERS[k] == 0 {
      var p := POWERS[k - 1];
      assert POWERS[k] == 2 * p;
      Doubled(x, p);
      if l < k - 1 {
        OddMultipleIsOne(x, l, k - 1);
      }
    }
  }

  lemma Doubled(x: nat, p: nat)
    requires p > 0 && x % (2 * p) == 0
    ensures x % p == 0 && x / p % 2 == 0
  {
    var q := x / (2 * p);
    assert x == q * (2 * p) == (2 * q) * p;
    DivModUnique(x, 2 * q, 0, p);
  }

  lemma {:induction false} CeeAppRead(m: Memory, i: nat, a: CeeAppEntry)
    requires CeeAppOk(a) && Placed(m, i, CeeAppBytes(a))
    ensures CeeAppAt(m, i) == IeeeTerms(a)
  {
    hide FirstBit, LowestPriority, Placed, EncodeWord, Word;
    FirstBitIsLowest(a.prioMap, 0);
    var head, sel := EncodeWord(a.protocol), [Octet(a.oui / 0x1_0000 * 4 + a.selector)];
    var low, map8 := EncodeWord(a.oui % 0x1_0000), [Octet(a.prioMap)];
    PlacedParts(m, i, head + sel + low, map8);
    PlacedParts(m, i, head + sel, low);
    PlacedParts(m, i, head, sel);
    PlacedWord(m, i, a.protocol);
    PlacedOctet(m, i + 2, sel, 0);
    PlacedOctet(m, i + 5, map8, 0);
  }

  lemma {:induction false} CeeAppsRead(m: Memory, i: nat, apps: seq<CeeAppEntry>, k: nat)
    requires FeatureOk(Apps(apps)) && Placed(m, i, CeeAppInfo(apps)) && k < |apps|
    ensures i + 6 * k + 6 <= 4096 && CeeAppAt(m, i + 6 * k) == IeeeTerms(apps[k])
    decreases |apps|
  {
    hide CeeAppBytes, CeeAppAt, IeeeTerms;
    var n := |apps| - 1;
    PlacedParts(m, i, CeeAppInfo(apps[..n]), CeeAppBytes(apps[n]));
    if k < n {
      CeeAppsRead(m, i, apps[..n], k);
    } else {
      CeeAppRead(m, i + 6 * n, apps[n]);
    }
  }

  lemma {:induction false} PgPlaced(m: Memory, at: nat, f: CeeFeature)
    requires f.Pg? && FeatureOk(f) && Placed(m, at, FeatureBytes(f)) && at + 19 <= 4096
    ensures TypeOf(Word(m, at)) == CEE_PG && 2 + LengthOf(Word(m, at)) == |FeatureBytes(f)|
    ensures Placed(m, at + 2, [0, 0, if f.willing then 0xC0 else 0x80, 0])
    ensures Placed(m, at + 6, Nibbles(f.prio)) && Placed(m, at + 10, Octets(f.bw))
    ensures Placed(m, at + 18, [Octet(f.maxtcs)])
  {
    hide Nibbles, Octets, Placed, Word, TypeOf, LengthOf, EncodeWord;
    var head: seq<Byte> := [0, 0, if f.willing then 0xC0 else 0x80, 0];
    var a, b, d := Nibbles(f.prio), Octets(f.bw), [Octet(f.maxtcs)];
    PlacedTlv(m, at, CEE_PG, head + a + b + d);
    PlacedParts(m, at + 2, head + a + b, d);
    PlacedParts(m, at + 2, head + a, b);
    PlacedParts(m, at + 2, head, a);
  }

  lemma {:induction false} PgRead(m: Memory, at: nat, f: CeeFeature, c: Dcbx)
    requires f.Pg? && FeatureOk(f) && c.Valid() && Placed(m, at, FeatureBytes(f)) && at + 19 <= 4096
    ensures TypeOf(Word(m, at)) == CEE_PG && 2 + LengthOf(Word(m, at)) == |FeatureBytes(f)|
    ensures CeePg(m, at, c) == ApplyFeature(f, c)
  {
    hide PrioTable, Bytes8, Nibbles, Octets, FeatureBytes, Placed, Word, TypeOf, LengthOf;
    var head: seq<Byte> := [0, 0, if f.willing then 0xC0 else 0x80, 0];
    PgPlaced(m, at, f);
    PlacedOctet(m, at + 2, head, 2);
    PlacedNibbles(m, at + 6, f.prio, 16);
    PlacedOctets(m, at + 10, f.bw);
    PlacedOctet(m, at + 18, [Octet(f.maxtcs)], 0);
  }

  lemma {:induction false} PfcFeatureRead(m: Memory, at: nat, f: CeeFeature, c: Dcbx)
    requires f.PfcFeature? && FeatureOk(f) && c.Valid() && Placed(m, at, FeatureBytes(f)) && at + 19 <= 4096
    ensures TypeOf(Word(m, at)) == CEE_PFC && 2 + LengthOf(Word(m, at)) == |FeatureBytes(f)|
    ensures CeePfc(m, at, c) == ApplyFeature(f, c)
  {
    var head: seq<Byte> := [0, 0, if f.willing then 0xC0 else 0x80, 0];
    var d := [Octet(f.enable), Octet(f.cap)];
    PlacedTlv(m, at, CEE_PFC, head + d);
    PlacedParts(m, at + 2, head, d);
    PlacedOctet(m, at + 2, head, 2);
    PlacedOctet(m, at + 6, d, 0);
    PlacedOctet(m, at + 6, d, 1);
  }

  lemma {:induction false} AppsPlaced(m: Memory, at: nat, f: CeeFeature)
    requires f.Apps? && FeatureOk(f) && Placed(m, at, FeatureBytes(f)) && at + 6 <= 4096
    ensures TypeOf(Word(m, at)) == CEE_APP && 2 + LengthOf(Word(m, at)) == |FeatureBytes(f)|
    ensures LengthOf(Word(m, at)) == 4 + 6 * |f.apps| && Placed(m, at + 6, CeeAppInfo(f.apps))
  {
    hide CeeAppInfo, Word, TypeOf, LengthOf, Placed, EncodeWord;
    var head: seq<Byte> := [0, 0, 0x80, 0];
    PlacedTlv(m, at, CEE_APP, head + CeeAppInfo(f.apps));
    PlacedParts(m, at + 2, head, CeeAppInfo(f.apps));
  }

  lemma {:induction false} AppsFeatureRead(m: Memory, at: nat, f: CeeFeature, c: Dcbx)
    requires f.Apps? && FeatureOk(f) && c.Valid() && Placed(m, at, FeatureBytes(f)) && at + 6 + 6 * MAX_APPS <= 4096
    ensures TypeOf(Word(m, at)) == CEE_APP && 2 + LengthOf(Word(m, at)) == |FeatureBytes(f)|
    ensures CeeApp(m, at, c) == ApplyFeature(f, c)
  {
    hide CeeAppAt, CeeAppInfo, WithApps, IeeeTerms, Word, TypeOf, LengthOf, Placed, FeatureBytes;
    AppsPlaced(m, at, f);
    var terms := AllIeeeTerms(f.apps);
    var n := |Capped(terms)|;
    forall k | 0 <= k < n ensures CeeAppsAt(m, at + 6, n)[k] == Capped(terms)[k] {
      CeeAppsRead(m, at + 6, f.apps, k);
    }
    assert CeeAppsAt(m, at + 6, n) == Capped(terms);
  }

  lemma {:induction false} FeatureRead(m: Memory, at: nat, f: CeeFeature, c: Dcbx)
    requires FeatureOk(f) && c.Valid() && Placed(m, at, FeatureBytes(f)) && at + 6 + 6 * MAX_APPS <= 4096
    ensures IsFeature(TypeOf(Word(m, at))) && 2 + LengthOf(Word(m, at)) == |FeatureBytes(f)|
    ensures Feature(m, at, c) == ApplyFeature(f, c)
  {
    hide CeePg, CeePfc, CeeApp, ApplyFeature, FeatureBytes, Word;
    match f
    case Pg(_, _, _, _) => PgRead(m, at, f, c);
    case PfcFeature(_, _, _) => PfcFeatureRead(m, at, f, c);
    case Apps(_) => AppsFeatureRead(m, at, f, c);
  }

  /** Features one after the other are applied in order, and the reading goes on behind them: at their end
      it stops only if there were three, or if what follows does not look like another feature. */
  lemma {:induction false} FeaturesRead(m: Memory, at: nat, count: nat, fs: seq<CeeFeature>, c: Dcbx)
    requires c.Valid() && (forall k :: 0 <= k < |fs| ==> FeatureOk(fs[k])) && Placed(m, at, EncodeFeatures(fs))
    requires count + |fs| <= CEE_MAX_FEATURES
    requires at + 513 * (CEE_MAX_FEATURES - count) + 6 + 6 * MAX_APPS <= 4096
    ensures at + |EncodeFeatures(fs)| + 513 * (CEE_MAX_FEATURES - count - |fs|) + 6 + 6 * MAX_APPS <= 4096
    ensures Features(m, at, count, c) ==
              Features(m, at + |EncodeFeatures(fs)|, count + |fs|, ApplyFeatures(fs, c))
    decreases |fs|
  {
    hide Feature, ApplyFeature, FeatureBytes, Word, FeatureOk;
    if |fs| > 0 {
      PlacedParts(m, at, FeatureBytes(fs[0]), EncodeFeatures(fs[1..]));
      FeatureRead(m, at, fs[0], c);
      FeaturesRead(m, at + |FeatureBytes(fs[0])|, count + 1, fs[1..], ApplyFeature(fs[0], c));
    }
  }

  /** After the features the loop goes on with whatever follows, unless there were none or three. */
  lemma {:induction false} CeeRead(m: Memory, at: nat, fs: seq<CeeFeature>, c: Dcbx)
    requires SettingOk(Cee(fs)) && c.Valid() && at <= ETH_HLEN + LLDPDU_SIZE
    requires Placed(m, at, EncodeSetting(Cee(fs)))
    ensures var end := at + |EncodeSetting(Cee(fs))|;
            && end + 513 * (CEE_MAX_FEATURES - |fs|) + 6 + 6 * MAX_APPS <= 4096
            && LldpModel.Cee(m, at, c) ==
                 if |fs| == 0 then c else Features(m, end, |fs|, ApplyFeatures(fs, c))
  {
    hide Word, U8, FeatureOk, ApplyFeatures, Features, EncodeFeatures, Placed, Tlv, OrgHead;
    PlacedOrg(m, at, CEE_OUI, CEE_TYPE, CEE_CONTROL + EncodeFeatures(fs));
    PlacedParts(m, at + 6, CEE_CONTROL, EncodeFeatures(fs));
    SomeFeatures(fs);
    FeaturesRead(m, at + CEE_HEADER, 0, fs, c);
  }

  lemma FeaturesDone(m: Memory, at: nat, c: Dcbx)
    requires at + 6 + 6 * MAX_APPS <= 4096 && c.Valid()
    ensures Features(m, at, CEE_MAX_FEATURES, c) == c
  {
  }

  lemma SomeFeatures(fs: seq<CeeFeature>)
    requires forall k :: 0 <= k < |fs| ==> FeatureOk(fs[k])
    ensures if |fs| == 0 then |EncodeFeatures(fs)| == 0 else |EncodeFeatures(fs)| >= 6
  {
  }

  // ----- The whole LLDPDU -----

  /** An organisation's TLV goes to that organisation's parser. */
  lemma {:induction false} OrgRead(m: Memory, at: nat, oui: nat, subtype: nat, info: seq<Byte>, c: Dcbx)
    requires oui < 0x100_0000 && subtype < 256 && |info| < 508 && c.Valid() && at <= ETH_HLEN + LLDPDU_SIZE
    requires Placed(m, at, Tlv(TYPE_ORG, OrgHead(oui, subtype) + info))
    ensures TypeOf(Word(m, at)) == TYPE_ORG && LengthOf(Word(m, at)) == 4 + |info|
    ensures U8(m, at + 5) == subtype && Placed(m, at + 6, info)
    ensures oui == IEEE_OUI ==> Org(m, at, c) == Ieee(m, at, c)
    ensures oui == CEE_OUI ==> Org(m, at, c) == LldpModel.Cee(m, at, c)
  {
    hide Word, U8, Ieee, LldpModel.Cee, Placed, Tlv, OrgHead;
    PlacedOrg(m, at, oui, subtype, info);
  }

  lemma {:induction false} IeeeRead(m: Memory, at: nat, s: Setting, c: Dcbx)
    requires SettingOk(s) && (s.EtsConfig? || s.EtsRecommended? || s.PfcConfig?)
    requires c.Valid() && at <= ETH_HLEN + LLDPDU_SIZE && Placed(m, at, EncodeSetting(s))
    ensures TypeOf(Word(m, at)) == TYPE_ORG && 2 + LengthOf(Word(m, at)) == |EncodeSetting(s)|
    ensures Org(m, at, c) == Apply(s, c)
  {
    hide Word, U8, Placed, Tlv, OrgHead, EtsInfo, EtsCfg, EtsRec, PfcCfg, Org;
    match s
    case EtsConfig(e) =>
      OrgRead(m, at, IEEE_OUI, ETS_CFG, EtsInfo(e), c);
      EtsRead(m, at, e, c);
    case EtsRecommended(e) =>
      OrgRead(m, at, IEEE_OUI, ETS_REC, EtsInfo(e), c);
      EtsRead(m, at, e, c);
    case PfcConfig(p) =>
      OrgRead(m, at, IEEE_OUI, PFC_CFG, [Octet(p.willing * 128 + p.mbc * 64 + p.cap), Octet(p.enable)], c);
      PfcRead(m, at, p, c);
  }

  lemma {:induction false} TableRead(m: Memory, at: nat, apps: seq<App>, c: Dcbx)
    requires SettingOk(AppTable(apps)) && c.Valid() && at <= ETH_HLEN + LLDPDU_SIZE
    requires Placed(m, at, EncodeSetting(AppTable(apps)))
    ensures TypeOf(Word(m, at)) == TYPE_ORG && 2 + LengthOf(Word(m, at)) == |EncodeSetting(AppTable(apps))|
    ensures Org(m, at, c) == WithTable(apps, c)
  {
    hide Word, U8, Placed, OrgHead, IeeeApp, WithTable, AppInfo;
    var info := [0] + AppInfo(apps);
    OrgRead(m, at, IEEE_OUI, APP_PRI, info, c);
    PlacedParts(m, at + 6, [0], AppInfo(apps));
    AppTableRead(m, at, apps, c);
  }

  /** What the parser makes of one TLV: what it says, and after a short CEE TLV what the loop over features
      finds behind it. */
  function ReadOne(m: Memory, at: nat, s: Setting, c: Dcbx): Dcbx
    requires SettingOk(s) && c.Valid() && at <= ETH_HLEN + LLDPDU_SIZE
  {
    if Short(s) then Features(m, at + |EncodeSetting(s)|, |s.features|, Apply(s, c)) else Apply(s, c)
  }

  lemma {:induction false} CeeSettingRead(m: Memory, at: nat, fs: seq<CeeFeature>, c: Dcbx)
    requires SettingOk(Cee(fs)) && c.Valid() && at <= ETH_HLEN + LLDPDU_SIZE && Placed(m, at, EncodeSetting(Cee(fs)))
    ensures TypeOf(Word(m, at)) == TYPE_ORG && 2 + LengthOf(Word(m, at)) == |EncodeSetting(Cee(fs))|
    ensures Org(m, at, c) == ReadOne(m, at, Cee(fs), c)
  {
    hide Word, U8, Placed, OrgHead, LldpModel.Cee, FeatureOk, Features, ApplyFeature;
    CeeRead(m, at, fs, c);
    OrgRead(m, at, CEE_OUI, CEE_TYPE, CEE_CONTROL + EncodeFeatures(fs), c);
    if |fs| == CEE_MAX_FEATURES {
      FeaturesDone(m, at + |EncodeSetting(Cee(fs))|, ApplyFeatures(fs, c));
    }
  }

  /** Each TLV is read as what it says, up to what follows a short CEE TLV. */
  lemma {:induction false} SettingRead(m: Memory, at: nat, s: Setting, c: Dcbx)
    requires SettingOk(s) && c.Valid() && at <= ETH_HLEN + LLDPDU_SIZE && Placed(m, at, EncodeSetting(s))
    ensures var t := TypeOf(Word(m, at));
            && t == (if s.Other? then s.t else TYPE_ORG) && 2 + LengthOf(Word(m, at)) == |EncodeSetting(s)|
            && (if t == TYPE_ORG then Org(m, at, c) else c) == ReadOne(m, at, s, c)
  {
    hide Word, Placed, Org, EncodeFeatures, FeatureOk, ApplyFeatures, WithTable;
    match s
    case EtsConfig(_) => IeeeRead(m, at, s, c);
    case EtsRecommended(_) => IeeeRead(m, at, s, c);
    case PfcConfig(_) => IeeeRead(m, at, s, c);
    case AppTable(apps) => TableRead(m, at, apps, c);
    case Cee(fs) => CeeSettingRead(m, at, fs, c);
    case Other(t, value) => OtherRead(m, at, t, value, c);
  }

  lemma {:induction false} OtherRead(m: Memory, at: nat, t: nat, value: seq<Byte>, c: Dcbx)
    requires SettingOk(Other(t, value)) && c.Valid() && at <= ETH_HLEN + LLDPDU_SIZE && Placed(m, at, Tlv(t, value))
    ensures TypeOf(Word(m, at)) == t && LengthOf(Word(m, at)) == |value|
    ensures t == TYPE_ORG ==> Org(m, at, c) == c
  {
    hide EtsCfg, EtsRec, PfcCfg, IeeeApp, Features, Placed, Tlv, U8, TypeOf, LengthOf;
    PlacedTlv(m, at, t, value);
    if t == TYPE_ORG {
      PlacedOctet(m, at + 2, value, 0);
      PlacedOctet(m, at + 2, value, 1);
      PlacedOctet(m, at + 2, value, 2);
      PlacedOctet(m, at + 2, value, 3);
      assert value[..3] == [value[0], value[1], value[2]];
    }
  }

  lemma {:induction false} FeaturesReadOn(m: Memory, at: nat, count: nat, ss: seq<Setting>, c: Dcbx)
    requires c.Valid() && (forall k :: 0 <= k < |ss| ==> SettingOk(ss[k])) && count <= CEE_MAX_FEATURES
    requires at + |EncodeAll(ss)| <= ETH_HLEN + LLDPDU_SIZE && Placed(m, at, EncodeAll(ss) + EncodeWord(0))
    ensures Features(m, at, count, c) == ReadOn(m, at, CEE_MAX_FEATURES - count, ss, c)
    decreases |ss|
  {
    hide Feature, EncodeSetting, SettingOk, Word, Org;
    if |ss| == 0 {
      assert EncodeAll(ss) + EncodeWord(0) == EncodeWord(0);
      PlacedWord(m, at, 0);
    } else {
      var rest := EncodeAll(ss[1..]) + EncodeWord(0);
      assert EncodeAll(ss) + EncodeWord(0) == EncodeSetting(ss[0]) + rest;
      PlacedParts(m, at, EncodeSetting(ss[0]), rest);
      SettingRead(m, at, ss[0], c);
      if count < CEE_MAX_FEATURES && LooksLikeFeature(ss[0]) {
        FeaturesReadOn(m, at + |EncodeSetting(ss[0])|, count + 1, ss[1..], Feature(m, at, c));
      }
    }
  }

  lemma {:induction false} OneIsRead(m: Memory, at: nat, s: Setting, rest: seq<Setting>, c: Dcbx)
    requires c.Valid() && SettingOk(s) && (forall k :: 0 <= k < |rest| ==> SettingOk(rest[k]))
    requires at + |EncodeSetting(s)| + |EncodeAll(rest)| <= ETH_HLEN + LLDPDU_SIZE
    requires Placed(m, at + |EncodeSetting(s)|, EncodeAll(rest) + EncodeWord(0))
    ensures ReadOne(m, at, s, c) ==
              if Short(s) then ReadOn(m, at + |EncodeSetting(s)|, CEE_MAX_FEATURES - |s.features|, rest, Apply(s, c))
              else Apply(s, c)
  {
    hide EncodeSetting, SettingOk, Apply, Features, ReadOn;
    if Short(s) {
      FeaturesReadOn(m, at + |EncodeSetting(s)|, |s.features|, rest, Apply(s, c));
    }
  }

  /** The parser's walk over any list of well-formed TLVs closed by an End TLV: the list is read from left to
      right, and after a CEE TLV of one or two features the TLVs of type 2, 3 or 4 that follow it directly are
      taken for further features, too. */
  lemma {:induction false} WalkReads(m: Memory, offset: nat, ss: seq<Setting>, c: Dcbx)
    requires (forall k :: 0 <= k < |ss| ==> SettingOk(ss[k])) && c.Valid()
    requires offset + |EncodeAll(ss)| + 2 <= 1500
    requires Placed(m, 14 + offset, EncodeAll(ss) + EncodeWord(0))
    ensures Walk(m, offset, c) == ReadAll(m, 14 + offset, ss, c)
    decreases |ss|
  {
    hide Org, Apply, EncodeSetting, SettingOk, Word, ReadOn, ReadOne, Short;
    if |ss| == 0 {
      assert EncodeAll(ss) + EncodeWord(0) == EncodeWord(0);
      PlacedWord(m, ETH_HLEN + offset, 0);
    } else {
      var rest := EncodeAll(ss[1..]) + EncodeWord(0);
      var at := ETH_HLEN + offset;
      assert EncodeAll(ss) + EncodeWord(0) == EncodeSetting(ss[0]) + rest;
      PlacedParts(m, at, EncodeSetting(ss[0]), rest);
      SettingRead(m, at, ss[0], c);
      NotEnd(ss[0]);
      OneIsRead(m, at, ss[0], ss[1..], c);
      WalkReads(m, offset + |EncodeSetting(ss[0])|, ss[1..], ReadOne(m, at, ss[0], c));
    }
  }

  /** The walk ends at an End TLV, and at any TLV that reaches beyond the 1500 octets of the frame, which it does not
      apply. */
  lemma {:induction false} WalkStops(m: Memory, offset: nat, t: nat, length: nat, c: Dcbx)
    requires offset <= 1500 && t < 128 && length < 512 && c.Valid()
    requires Placed(m, 14 + offset, EncodeWord(512 * t + length))
    requires t == 0 || offset + 2 + length > 1500
    ensures Walk(m, offset, c) == c
  {
    hide Org;
    PlacedWord(m, 14 + offset, 512 * t + length);
    DivModUnique(512 * t + length, t, length, 512);
  }

  lemma NotEnd(s: Setting)
    requires SettingOk(s)
    ensures s.Other? ==> s.t != TYPE_END
  {
  }

  lemma {:induction false} NoneMistakenIsFold(m: Memory, at: nat, ss: seq<Setting>, c: Dcbx)
    requires (forall k :: 0 <= k < |ss| ==> SettingOk(ss[k])) && c.Valid() && NoneMistaken(ss)
    requires at + |EncodeAll(ss)| <= ETH_HLEN + LLDPDU_SIZE
    ensures ReadAll(m, at, ss, c) == ApplyAll(ss, c)
    decreases |ss|
  {
    hide Apply, EncodeSetting, SettingOk, Short, LooksLikeFeature;
    if |ss| > 0 {
      if |ss| > 1 {
        assert !(Short(ss[0]) && LooksLikeFeature(ss[0 + 1]));
      }
      forall k | 0 <= k < |ss[1..]| - 1 ensures !(Short(ss[1..][k]) && LooksLikeFeature(ss[1..][k + 1])) {
        assert !(Short(ss[k + 1]) && LooksLikeFeature(ss[k + 1 + 1]));
      }
      NoneMistakenIsFold(m, at + |EncodeSetting(ss[0])|, ss[1..], Apply(ss[0], c));
    }
  }

  /** The walk is the fold over the list, for every list in which no CEE TLV of one or two features stands
      directly before a TLV of type 2, 3 or 4. */
  lemma {:induction false} WalkIsFold(m: Memory, offset: nat, ss: seq<Setting>, c: Dcbx)
    requires (forall k :: 0 <= k < |ss| ==> SettingOk(ss[k])) && c.Valid() && NoneMistaken(ss)
    requires offset + |EncodeAll(ss)| + 2 <= 1500
    requires Placed(m, 14 + offset, EncodeAll(ss) + EncodeWord(0))
    ensures Walk(m, offset, c) == ApplyAll(ss, c)
  {
    hide Walk, ReadAll, ApplyAll, Placed, SettingOk, NoneMistaken;
    WalkReads(m, offset, ss, c);
    NoneMistakenIsFold(m, ETH_HLEN + offset, ss, c);
  }

  /** A CEE TLV with one feature, then a Port Description (type 4): its text is taken for a table of
      applications, one for every six octets, and the walk is not the fold. */
  lemma {:induction false} PortDescriptionMistaken(m: Memory, f: CeeFeature, text: seq<Byte>, c: Dcbx)
    requires f.PfcFeature? && FeatureOk(f) && c.Valid() && |text| <= 255
    requires SettingOk(Cee([f])) && SettingOk(Other(CEE_APP, text))
    requires Placed(m, 14, EncodeAll([Cee([f]), Other(CEE_APP, text)]) + EncodeWord(0))
    ensures Walk(m, 0, c).numapps == CeeAppCount(|text|)
    ensures ApplyAll([Cee([f]), Other(CEE_APP, text)], c).numapps == c.numapps
    ensures CeeAppCount(|text|) != c.numapps ==>
              Walk(m, 0, c) != ApplyAll([Cee([f]), Other(CEE_APP, text)], c)
  {
    hide EncodeSetting, Walk, ReadAll, ApplyAll, EncodeAll, Apply, SettingOk, FeatureOk;
    var a, b := Cee([f]), Other(CEE_APP, text);
    var next := ETH_HLEN + |EncodeSetting(a)|;
    SizesOfBoth(f, text);
    TwoSettings(a, b, c);
    NothingSaid(f, text, c);
    WalkReads(m, 0, [a, b], c);
    TwoRead(m, ETH_HLEN, a, b, c);
    PlacedSecond(m, ETH_HLEN, a, b);
    MistakenRead(m, next, text, Apply(a, c));
  }

  lemma SizesOfBoth(f: CeeFeature, text: seq<Byte>)
    requires f.PfcFeature? && SettingOk(Cee([f])) && SettingOk(Other(CEE_APP, text))
    ensures |EncodeSetting(Cee([f]))| == 26 && |EncodeSetting(Other(CEE_APP, text))| == 2 + |text|
    ensures Short(Cee([f]))
  {
    assert [f][1..] == [];
    assert EncodeFeatures([f]) == FeatureBytes(f) + EncodeFeatures([]);
  }

  lemma NothingSaid(f: CeeFeature, text: seq<Byte>, c: Dcbx)
    requires f.PfcFeature? && SettingOk(Cee([f])) && SettingOk(Other(CEE_APP, text)) && c.Valid()
    ensures Apply(Other(CEE_APP, text), Apply(Cee([f]), c)).numapps == c.numapps
    ensures forall c': Dcbx :: c'.Valid() ==> Apply(Other(CEE_APP, text), c') == c'
  {
    assert [f][1..] == [];
    assert ApplyFeatures([f], c) == ApplyFeatures([], ApplyFeature(f, c));
  }

  lemma TwoSettings(a: Setting, b: Setting, c: Dcbx)
    requires SettingOk(a) && SettingOk(b) && c.Valid()
    ensures EncodeAll([a, b]) == EncodeSetting(a) + EncodeSetting(b)
    ensures ApplyAll([a, b], c) == Apply(b, Apply(a, c))
  {
    hide EncodeSetting, Apply, SettingOk;
    assert [a, b][1..] == [b] && [b][1..] == [];
    assert EncodeAll([b]) == EncodeSetting(b) + EncodeAll([]);
    assert ApplyAll([b], Apply(a, c)) == Apply(b, Apply(a, c));
  }

  lemma TwoRead(m: Memory, at: nat, a: Setting, b: Setting, c: Dcbx)
    requires SettingOk(a) && SettingOk(b) && c.Valid() && a.Cee? && |a.features| == 1 && LooksLikeFeature(b)
    requires at + |EncodeAll([a, b])| <= ETH_HLEN + LLDPDU_SIZE
    requires EncodeAll([a, b]) == EncodeSetting(a) + EncodeSetting(b)
    ensures at + |EncodeSetting(a)| + 6 + 6 * MAX_APPS <= 4096
    ensures ReadAll(m, at, [a, b], c) == Apply(b, Feature(m, at + |EncodeSetting(a)|, Apply(a, c)))
  {
    hide EncodeSetting, Apply, SettingOk, Feature, EncodeAll;
    assert [a, b][1..] == [b] && [b][1..] == [];
    var next := at + |EncodeSetting(a)|;
    var c1 := Apply(a, c);
    assert ReadOn(m, next, 2, [b], c1) == ReadOn(m, next + |EncodeSetting(b)|, 1, [], Feature(m, next, c1));
    OneSetting(b);
    assert ReadAll(m, next, [b], Feature(m, next, c1)) ==
           ReadAll(m, next + |EncodeSetting(b)|, [], Apply(b, Feature(m, next, c1)));
  }

  lemma OneSetting(b: Setting)
    requires SettingOk(b)
    ensures EncodeAll([b]) == EncodeSetting(b) && EncodeAll([]) == []
  {
    hide EncodeSetting, SettingOk;
    assert [b][1..] == [];
  }

  lemma PlacedSecond(m: Memory, at: nat, a: Setting, b: Setting)
    requires SettingOk(a) && SettingOk(b) && EncodeAll([a, b]) == EncodeSetting(a) + EncodeSetting(b)
    requires Placed(m, at, EncodeAll([a, b]) + EncodeWord(0))
    ensures Placed(m, at + |EncodeSetting(a)|, EncodeSetting(b))
  {
    hide EncodeSetting, SettingOk, Placed;
    PlacedParts(m, at, EncodeSetting(a) + EncodeSetting(b), EncodeWord(0));
    PlacedParts(m, at, EncodeSetting(a), EncodeSetting(b));
  }

  lemma MistakenRead(m: Memory, at: nat, text: seq<Byte>, c: Dcbx)
    requires SettingOk(Other(CEE_APP, text)) && c.Valid() && Placed(m, at, EncodeSetting(Other(CEE_APP, text)))
    requires at + 6 + 6 * MAX_APPS <= 4096
    ensures Feature(m, at, c).numapps == CeeAppCount(|text|)
  {
    PlacedTlv(m, at, CEE_APP, text);
    hide CeeAppAt, WithApps, Word, Tlv, Placed;
  }

  /** Parsing the encoded tables gives them back, the applications as far as there is room for them. */
  lemma {:induction false} TablesComeBack(m: Memory, e: Ets, p: Pfc, apps: seq<App>, c: Dcbx)
    requires EtsOk(e) && PfcOk(p) && SettingOk(AppTable(apps)) && c.Valid()
    requires Placed(m, 14, EncodeAll([EtsConfig(e), PfcConfig(p), AppTable(apps)]) + EncodeWord(0))
    ensures var c' := Walk(m, 0, c);
            && c'.ets == e && c'.pfc == p
            && c'.numapps == |Capped(apps)| && c'.Apps() == Capped(apps)
  {
    hide EtsInfo, AppInfo, Walk, WithApps, Placed, EtsOk, PfcOk, EncodeAll, ApplyAll;
    var ss := [EtsConfig(e), PfcConfig(p), AppTable(apps)];
    ThreeSettings(ss[0], ss[1], ss[2], c);
    assert |EncodeSetting(ss[0])| == 27 && |EncodeSetting(ss[1])| == 8;
    WalkIsFold(m, 0, ss, c);
  }

  lemma ThreeSettings(a: Setting, b: Setting, d: Setting, c: Dcbx)
    requires SettingOk(a) && SettingOk(b) && SettingOk(d) && c.Valid()
    ensures |EncodeAll([a, b, d])| == |EncodeSetting(a)| + |EncodeSetting(b)| + |EncodeSetting(d)|
    ensures ApplyAll([a, b, d], c) == Apply(d, Apply(b, Apply(a, c)))
  {
    hide EncodeSetting, Apply, SettingOk;
    assert [a, b, d][1..] == [b, d] && [b, d][1..] == [d] && [d][1..] == [];
    assert ApplyAll([d], Apply(b, Apply(a, c))) == Apply(d, Apply(b, Apply(a, c)));
    assert ApplyAll([b, d], Apply(a, c)) == ApplyAll([d], Apply(b, Apply(a, c)));
    assert EncodeAll([d]) == EncodeSetting(d) + EncodeAll([]);
    assert EncodeAll([b, d]) == EncodeSetting(b) + EncodeAll([d]);
  }

  // ----- Octet by octet -----

  /** Type and length, the organisation, the sub-type, and what follows. */
  lemma {:induction false} OrgOctets(oui: nat, subtype: nat, info: seq<Byte>)
    requires oui < 0x100_0000 && subtype < 256 && |info| < 252
    ensures var bs := Tlv(TYPE_ORG, OrgHead(oui, subtype) + info);
            && |bs| == 6 + |info| && bs[6..] == info
            && bs[0] == 0xFE && bs[1] as int == 4 + |info|
            && 0x1_0000 * bs[2] as int + 256 * bs[3] as int + bs[4] as int == oui && bs[5] as int == subtype
  {
  }

  ghost predicate Starts(bs: seq<Byte>, head: seq<Byte>) {
    |bs| >= |head| && forall k :: 0 <= k < |head| ==> bs[k] == head[k]
  }

  lemma {:induction false} EtsInfoOctets(e: Ets)
    requires EtsOk(e)
    ensures var info := EtsInfo(e);
            && |info| == 21 && info[0] as int == 128 * e.willing + 64 * e.cbs + e.maxtcs
            && (forall k :: 0 <= k < 4 ==> info[1 + k] as int == 16 * e.prio[2 * k] + e.prio[2 * k + 1])
            && (forall k :: 0 <= k < 8 ==> info[5 + k] as int == e.bw[k] && info[13 + k] as int == e.tsa[k])
  {
  }

  /** The octets of both ETS TLVs. */
  lemma {:induction false} EtsOctets(e: Ets)
    requires EtsOk(e)
    ensures Starts(EncodeSetting(EtsConfig(e)), [0xFE, 0x19, 0x00, 0x80, 0xC2, 0x09])
    ensures Starts(EncodeSetting(EtsRecommended(e)), [0xFE, 0x19, 0x00, 0x80, 0xC2, 0x0A])
    ensures EncodeSetting(EtsConfig(e))[6..] == EncodeSetting(EtsRecommended(e))[6..]
    ensures var info := EncodeSetting(EtsConfig(e))[6..];
            && |info| == 21 && info[0] as int == 128 * e.willing + 64 * e.cbs + e.maxtcs
            && (forall k :: 0 <= k < 4 ==> info[1 + k] as int == 16 * e.prio[2 * k] + e.prio[2 * k + 1])
            && (forall k :: 0 <= k < 8 ==> info[5 + k] as int == e.bw[k] && info[13 + k] as int == e.tsa[k])
  {
    hide Tlv, OrgHead, EtsInfo;
    EtsInfoOctets(e);
    OrgOctets(IEEE_OUI, ETS_CFG, EtsInfo(e));
    OrgOctets(IEEE_OUI, ETS_REC, EtsInfo(e));
  }

  lemma {:induction false} PfcOctets(p: Pfc)
    requires PfcOk(p)
    ensures Starts(EncodeSetting(PfcConfig(p)), [0xFE, 0x06, 0x00, 0x80, 0xC2, 0x0B])
    ensures var info := EncodeSetting(PfcConfig(p))[6..];
            |info| == 2 && info[0] as int == 128 * p.willing + 64 * p.mbc + p.cap && info[1] as int == p.enable
  {
    hide Tlv, OrgHead;
    OrgOctets(IEEE_OUI, PFC_CFG, [Octet(p.willing * 128 + p.mbc * 64 + p.cap), Octet(p.enable)]);
  }

  lemma {:induction false} AppInfoOctets(apps: seq<App>, k: nat)
    requires (forall i :: 0 <= i < |apps| ==> AppOk(apps[i])) && k < |apps|
    ensures var info := AppInfo(apps);
            && info[3 * k] as int == 32 * apps[k].priority + apps[k].selector
            && 256 * info[3 * k + 1] as int + info[3 * k + 2] as int == apps[k].protocol
  {
    var n := |apps| - 1;
    if k < n {
      AppInfoOctets(apps[..n], k);
    }
  }

  /** An application TLV of at most 82 entries, whose length fits in the second octet. */
  lemma {:induction false} AppOctets(apps: seq<App>, k: nat)
    requires SettingOk(AppTable(apps)) && k < |apps| <= 82
    ensures Starts(EncodeSetting(AppTable(apps)), [0xFE, (5 + 3 * |apps|) as Byte, 0x00, 0x80, 0xC2, 0x0C, 0x00])
    ensures var info := EncodeSetting(AppTable(apps))[7..];
            && |info| == 3 * |apps|
            && info[3 * k] as int == 32 * apps[k].priority + apps[k].selector
            && 256 * info[3 * k + 1] as int + info[3 * k + 2] as int == apps[k].protocol
  {
    hide Tlv, OrgHead, AppInfo;
    OrgOctets(IEEE_OUI, APP_PRI, [0] + AppInfo(apps));
    AppInfoOctets(apps, k);
    assert EncodeSetting(AppTable(apps))[7..] == EncodeSetting(AppTable(apps))[6..][1..] == AppInfo(apps);
  }

  lemma TlvOctets(t: nat, value: seq<Byte>)
    requires t < 128 && |value| < 256
    ensures var bs := Tlv(t, value); bs[0] as int == 2 * t && bs[1] as int == |value| && bs[2..] == value
  {
  }

  /** The octets of the CEE features. */
  lemma {:induction false} PgOctets(willing: bool, prio: seq<nat>, bw: seq<nat>, maxtcs: nat)
    requires FeatureOk(Pg(willing, prio, bw, maxtcs))
    ensures var bs := FeatureBytes(Pg(willing, prio, bw, maxtcs));
            && |bs| == 19 && Starts(bs, [0x04, 0x11, 0x00, 0x00, if willing then 0xC0 else 0x80, 0x00])
            && (forall k :: 0 <= k < 4 ==> bs[6 + k] as int == 16 * prio[2 * k] + prio[2 * k + 1])
            && (forall k :: 0 <= k < 8 ==> bs[10 + k] as int == bw[k]) && bs[18] as int == maxtcs
  {
    hide Tlv;
    var value := [0, 0, if willing then 0xC0 else 0x80, 0] + Nibbles(prio) + Octets(bw) + [Octet(maxtcs)];
    TlvOctets(CEE_PG, value);
    assert FeatureBytes(Pg(willing, prio, bw, maxtcs))[2..] == value;
  }

  lemma {:induction false} PfcFeatureOctets(willing: bool, enable: nat, cap: nat)
    requires enable < 256 && cap < 256
    ensures FeatureBytes(PfcFeature(willing, enable, cap)) ==
              [0x06, 0x06, 0x00, 0x00, if willing then 0xC0 else 0x80, 0x00, Octet(enable), Octet(cap)]
  {
  }

  lemma {:induction false} CeeAppOctets(a: CeeAppEntry)
    requires CeeAppOk(a)
    ensures FeatureOk(Apps([a]))
    ensures var bs := FeatureBytes(Apps([a]));
            && |bs| == 12 && Starts(bs, [0x08, 0x0A, 0x00, 0x00, 0x80, 0x00])
            && 256 * bs[6] as int + bs[7] as int == a.protocol && bs[11] as int == a.prioMap
            && 0x1_0000 * bs[8] as int + 256 * bs[9] as int + bs[10] as int ==
                 0x4_0000 * (a.oui / 0x1_0000) + 0x1_0000 * a.selector + a.oui % 0x1_0000
  {
    hide Tlv;
    assert [a][0] == a && [a][..0] == [];
    assert CeeAppInfo([a]) == CeeAppInfo([]) + CeeAppBytes(a) == CeeAppBytes(a);
    TlvOctets(CEE_APP, [0, 0, 0x80, 0] + CeeAppBytes(a));
  }

  /** A CEE TLV of features that take fewer than 240 octets. */
  lemma {:induction false} CeeOctets(fs: seq<CeeFeature>)
    requires SettingOk(Cee(fs)) && |EncodeFeatures(fs)| < 240
    ensures Starts(EncodeSetting(Cee(fs)), [0xFE, (16 + |EncodeFeatures(fs)|) as Byte, 0x00, 0x1B, 0x21, 0x02])
    ensures |EncodeSetting(Cee(fs))| == 18 + |EncodeFeatures(fs)|
    ensures EncodeSetting(Cee(fs))[18..] == EncodeFeatures(fs)
  {
    hide Tlv, OrgHead, EncodeFeatures, FeatureOk;
    OrgOctets(CEE_OUI, CEE_TYPE, CEE_CONTROL + EncodeFeatures(fs));
    assert EncodeSetting(Cee(fs))[18..] == EncodeSetting(Cee(fs))[6..][12..] == EncodeFeatures(fs);
  }
}

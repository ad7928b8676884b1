/** The DCB settings carried by an LLDPDU (IEEE 802.1AB-2009 clause 8.4, IEEE 802.1Q Annex D.2). */
module LldpModel {
  import opened RawRecord

  const ETH_HLEN := 14
  const LLDPDU_SIZE := 1500
  const MAX_TC := 8
  const MAX_APPS := 32
  const TYPE_END := 0
  const TYPE_ORG := 127
  const IEEE_OUI := 0x0080C2
  const CEE_OUI := 0x001B21
  const ETS_CFG := 9
  const ETS_REC := 10
  const PFC_CFG := 11
  const APP_PRI := 12
  const CEE_TYPE := 2
  const CEE_PG := 2
  const CEE_PFC := 3
  const CEE_APP := 4
  const CEE_MAX_FEATURES := 3
  const CEE_HEADER := 18

  datatype Ets = Ets(willing: nat, cbs: nat, maxtcs: nat, prio: seq<nat>, bw: seq<nat>, tsa: seq<nat>) {
    predicate Valid() {
      |prio| == |bw| == |tsa| == MAX_TC
    }
  }

  datatype Pfc = Pfc(willing: nat, mbc: nat, cap: nat, enable: nat)

  datatype App = App(priority: nat, selector: nat, protocol: nat)

  /** `struct i40e_dcbx_config`; only the first `numapps` entries of `app` are in use. */
  datatype Dcbx = Dcbx(ets: Ets, rec: Ets, pfc: Pfc, app: seq<App>, numapps: nat) {
    predicate Valid() {
      ets.Valid() && rec.Valid() && |app| == MAX_APPS
    }

    function Apps(): seq<App>
      requires Valid() && numapps <= MAX_APPS
    {
      app[..numapps]
    }
  }

  // ----- Bytes -----

  /** Memory that holds the frame and can be read some way past its end: the parser checks no length
      inside a TLV. */
  type Memory = m: seq<Byte> | 4096 <= |m| witness seq(4096, i => 0)

  function U8(m: Memory, i: nat): (x: nat)
    requires i < 4096
    ensures x < 256
  {
    m[i] as int
  }

  function Word(m: Memory, i: nat): (x: nat)
    requires i + 1 < 4096
    ensures x < 0x1_0000
  {
    256 * U8(m, i) + U8(m, i + 1)
  }

  function TypeOf(w: nat): (t: nat)
    requires w < 0x1_0000
    ensures t < 128
  {
    w / 512
  }

  function LengthOf(w: nat): (l: nat)
    ensures l < 512
  {
    w % 512
  }

  function OctetAt(m: Memory, i: nat, k: nat): nat
    requires i + k < 4096
  {
    U8(m, i + k)
  }

  function Bytes8(m: Memory, i: nat): (t: seq<nat>)
    requires i + MAX_TC <= 4096
    ensures |t| == MAX_TC
  {
    seq(MAX_TC, (k: nat) requires k < MAX_TC => OctetAt(m, i, k))
  }

  /** Two priorities an octet, the first in the upper half. */
  function PrioTable(m: Memory, i: nat, range: nat): (t: seq<nat>)
    requires i + 4 <= 4096 && range > 0
    ensures |t| == MAX_TC
  {
    seq(MAX_TC, (k: nat) requires k < MAX_TC => PrioAt(m, i, k, range))
  }

  function PrioAt(m: Memory, i: nat, k: nat, range: nat): nat
    requires i + 4 <= 4096 && range > 0 && k < MAX_TC
  {
    if k % 2 == 0 then U8(m, i + k / 2) / 16 % range else U8(m, i + k / 2) % range
  }

  // ----- IEEE 802.1Qaz TLVs; `at` is the start of the TLV -----

  function EtsCfg(m: Memory, at: nat, c: Dcbx): Dcbx
    requires at + 27 <= 4096
  {
    var b := U8(m, at + 6);
    c.(ets := Ets(b / 128, b / 64 % 2, b % 8, PrioTable(m, at + 7, 8), Bytes8(m, at + 11), Bytes8(m, at + 19)))
  }

  function EtsRec(m: Memory, at: nat, c: Dcbx): Dcbx
    requires at + 27 <= 4096
  {
    c.(rec := c.rec.(prio := PrioTable(m, at + 7, 8), bw := Bytes8(m, at + 11), tsa := Bytes8(m, at + 19)))
  }

  function PfcCfg(m: Memory, at: nat, c: Dcbx): Dcbx
    requires at + 8 <= 4096
  {
    var b := U8(m, at + 6);
    c.(pfc := Pfc(b / 128, b / 64 % 2, b % 16, U8(m, at + 7)))
  }

  function AppAt(m: Memory, i: nat): App
    requires i + 3 <= 4096
  {
    App(U8(m, i) / 32, U8(m, i) % 8, Word(m, i + 1))
  }

  /** The entries the loop writes; `length` is 16 bits wide and wraps for a TLV shorter than its fixed
      part. */
  function AppCount(length: nat): (n: nat)
    ensures n <= MAX_APPS
  {
    if (length + 1) / 3 > MAX_APPS then MAX_APPS else (length + 1) / 3
  }

  function AppLength(tlvLength: nat): nat {
    (tlvLength - 5) % 0x1_0000
  }

  function WithApps(app: seq<App>, read: seq<App>): (out: seq<App>)
    requires |read| <= |app|
    ensures |out| == |app| && out[..|read|] == read
  {
    read + app[|read|..]
  }

  function AppsAt(m: Memory, i: nat, n: nat): (apps: seq<App>)
    requires i + 3 * n <= 4096
    ensures |apps| == n
  {
    seq(n, (k: nat) requires k < n => AppAt(m, i + 3 * k))
  }

  function IeeeApp(m: Memory, at: nat, c: Dcbx): Dcbx
    requires at + 7 + 3 * MAX_APPS <= 4096 && c.Valid()
  {
    var n := AppCount(AppLength(LengthOf(Word(m, at))));
    c.(app := WithApps(c.app, AppsAt(m, at + 7, n)), numapps := n)
  }

  function Ieee(m: Memory, at: nat, c: Dcbx): (c': Dcbx)
    requires at + 7 + 3 * MAX_APPS <= 4096 && c.Valid()
    ensures c'.Valid()
  {
    var subtype := U8(m, at + 5);
    if subtype == ETS_CFG then EtsCfg(m, at, c)
    else if subtype == ETS_REC then EtsRec(m, at, c)
    else if subtype == PFC_CFG then PfcCfg(m, at, c)
    else if subtype == APP_PRI then IeeeApp(m, at, c)
    else c
  }

  // ----- CEE TLVs; `at` is the start of the feature TLV -----

  function Willing(m: Memory, at: nat): bool
    requires at + 4 < 4096
  {
    U8(m, at + 4) / 64 % 2 == 1
  }

  function CeePg(m: Memory, at: nat, c: Dcbx): Dcbx
    requires at + 19 <= 4096
  {
    c.(ets := Ets(if Willing(m, at) then 1 else c.ets.willing, 0, U8(m, at + 18), PrioTable(m, at + 6, 16),
                  Bytes8(m, at + 10), c.ets.tsa))
  }

  function CeePfc(m: Memory, at: nat, c: Dcbx): Dcbx
    requires at + 8 <= 4096
  {
    c.(pfc := c.pfc.(willing := if Willing(m, at) then 1 else c.pfc.willing, enable := U8(m, at + 6),
        cap := U8(m, at + 7)))
  }

  predicate HasBit(x: nat, k: nat) {
    if k == 0 then x % 2 == 1 else HasBit(x / 2, k - 1)
  }

  /** The lowest bit set from `up` on, or 8. */
  function FirstBit(x: nat, up: nat): (r: nat)
    requires up <= 8
    ensures up <= r <= 8
    decreases 8 - up
  {
    if up == 8 || HasBit(x, up) then up else FirstBit(x, up + 1)
  }

  function CeeAppAt(m: Memory, i: nat): App
    requires i + 6 <= 4096
  {
    var selector := U8(m, i + 2) % 4;
    App(FirstBit(U8(m, i + 5), 0), if selector == 0 then 1 else if selector == 1 then 2 else selector, Word(m, i))
  }

  function CeeAppsAt(m: Memory, i: nat, n: nat): (apps: seq<App>)
    requires i + 6 * n <= 4096
    ensures |apps| == n
  {
    seq(n, (k: nat) requires k < n => CeeAppAt(m, i + 6 * k))
  }

  function CeeAppCount(length: nat): (n: nat)
    ensures n <= MAX_APPS
  {
    if length / 6 > MAX_APPS then MAX_APPS else length / 6
  }

  function CeeApp(m: Memory, at: nat, c: Dcbx): Dcbx
    requires at + 6 + 6 * MAX_APPS <= 4096 && c.Valid()
  {
    var n := CeeAppCount(LengthOf(Word(m, at)));
    c.(app := WithApps(c.app, CeeAppsAt(m, at + 6, n)), numapps := n)
  }

  predicate IsFeature(t: nat) {
    t == CEE_PG || t == CEE_PFC || t == CEE_APP
  }

  function Feature(m: Memory, at: nat, c: Dcbx): (c': Dcbx)
    requires at + 6 + 6 * MAX_APPS <= 4096 && c.Valid()
    ensures c'.Valid()
  {
    var t := TypeOf(Word(m, at));
    if t == CEE_PG then CeePg(m, at, c)
    else if t == CEE_PFC then CeePfc(m, at, c)
    else if t == CEE_APP then CeeApp(m, at, c)
    else c
  }

  /** Up to three feature TLVs, wherever the TLV that holds them ends. */
  function Features(m: Memory, at: nat, count: nat, c: Dcbx): (c': Dcbx)
    requires count <= CEE_MAX_FEATURES && at + 513 * (CEE_MAX_FEATURES - count) + 6 + 6 * MAX_APPS <= 4096 && c.Valid()
    ensures c'.Valid()
    decreases CEE_MAX_FEATURES - count
  {
    var w := Word(m, at);
    if count == CEE_MAX_FEATURES || !IsFeature(TypeOf(w)) then c
    else Features(m, at + 2 + LengthOf(w), count + 1, Feature(m, at, c))
  }

  function Cee(m: Memory, at: nat, c: Dcbx): (c': Dcbx)
    requires at <= ETH_HLEN + LLDPDU_SIZE && c.Valid()
    ensures c'.Valid()
  {
    if U8(m, at + 5) != CEE_TYPE || LengthOf(Word(m, at)) <= CEE_HEADER then c
    else Features(m, at + CEE_HEADER, 0, c)
  }

  // ----- The walk -----

  function Org(m: Memory, at: nat, c: Dcbx): (c': Dcbx)
    requires at <= ETH_HLEN + LLDPDU_SIZE && c.Valid()
    ensures c'.Valid()
  {
    var oui := 0x1_0000 * U8(m, at + 2) + Word(m, at + 3);
    if oui == IEEE_OUI then Ieee(m, at, c) else if oui == CEE_OUI then Cee(m, at, c) else c
  }

  /** `i40e_lldp_to_dcb_config` from LLDPDU offset `offset` on. */
  function Walk(m: Memory, offset: nat, c: Dcbx): (c': Dcbx)
    requires offset <= LLDPDU_SIZE && c.Valid()
    ensures c'.Valid()
    decreases LLDPDU_SIZE - offset
  {
    var at := ETH_HLEN + offset;
    var t, next := TypeOf(Word(m, at)), offset + 2 + LengthOf(Word(m, at));
    if t == TYPE_END || next > LLDPDU_SIZE then c
    else Walk(m, next, if t == TYPE_ORG then Org(m, at, c) else c)
  }
}

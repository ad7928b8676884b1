/** The parser of the LLDPDU, field by field into the configuration. */
module LldpParser {
  import opened RawRecord
  import opened LldpModel

  class DcbxConfig {
    var etsWilling: nat
    var etsCbs: nat
    var etsMaxtcs: nat
    const etsPrio: array<nat>
    const etsBw: array<nat>
    const etsTsa: array<nat>
    const recPrio: array<nat>
    const recBw: array<nat>
    const recTsa: array<nat>
    var pfc: Pfc
    const app: array<App>
    var numapps: nat
    ghost const recHead: Ets

    ghost predicate Valid()
      reads this
    {
      && etsPrio.Length == etsBw.Length == etsTsa.Length == MAX_TC
      && recPrio.Length == recBw.Length == recTsa.Length == MAX_TC
      && app.Length == MAX_APPS
      && etsPrio != etsBw && etsPrio != etsTsa && etsBw != etsTsa
      && recPrio != recBw && recPrio != recTsa && recBw != recTsa
      && etsPrio !in {recPrio, recBw, recTsa} && etsBw !in {recPrio, recBw, recTsa} && etsTsa !in {recPrio,
          recBw, recTsa}
    }

    ghost function View(): (c: Dcbx)
      requires Valid()
      reads this, etsPrio, etsBw, etsTsa, recPrio, recBw, recTsa, app
      ensures c.Valid()
    {
      Dcbx(Ets(etsWilling, etsCbs, etsMaxtcs, etsPrio[..], etsBw[..], etsTsa[..]),
           recHead.(prio := recPrio[..], bw := recBw[..], tsa := recTsa[..]), pfc, app[..], numapps)
    }

    constructor ()
      ensures Valid() && fresh(etsPrio) && fresh(etsBw) && fresh(etsTsa) && fresh(recPrio) && fresh(recBw)
      ensures fresh(recTsa) && fresh(app)
      ensures numapps == 0
    {
      etsWilling, etsCbs, etsMaxtcs, pfc, numapps := 0, 0, 0, Pfc(0, 0, 0, 0), 0;
      etsPrio, etsBw, etsTsa := new nat[MAX_TC](i => 0), new nat[MAX_TC](i => 0), new nat[MAX_TC](i => 0);
      recPrio, recBw, recTsa := new nat[MAX_TC](i => 0), new nat[MAX_TC](i => 0), new nat[MAX_TC](i => 0);
      app := new App[MAX_APPS](i => App(0, 0, 0));
      recHead := Ets(0, 0, 0, [], [], []);
    }

    method ReadPrioTable(m: Memory, start: nat, range: nat, table: array<nat>) returns (offset: nat)
      requires start + 4 <= 4096 && range > 0 && table.Length == MAX_TC
      modifies table
      ensures table[..] == PrioTable(m, start, range) && offset == start + 4
    {
      offset := start;
      for i := 0 to 4
        invariant offset == start + i
        invariant forall k :: 0 <= k < 2 * i ==> table[k] == PrioAt(m, start, k, range)
      {
        table[i * 2] := U8(m, offset) / 16 % range;
        table[i * 2 + 1] := U8(m, offset) % range;
        offset := offset + 1;
      }
    }

    method ReadTable(m: Memory, start: nat, table: array<nat>) returns (offset: nat)
      requires start + MAX_TC <= 4096 && table.Length == MAX_TC
      modifies table
      ensures table[..] == Bytes8(m, start) && offset == start + MAX_TC
    {
      offset := start;
      for i := 0 to MAX_TC
        invariant offset == start + i
        invariant forall k :: 0 <= k < i ==> table[k] == U8(m, start + k)
      {
        table[i] := U8(m, offset);
        offset := offset + 1;
      }
    }

    method ParseIeeeEtscfg(m: Memory, at: nat)
      requires Valid() && at + 27 <= 4096
      modifies this`etsWilling, this`etsCbs, this`etsMaxtcs, etsPrio, etsBw, etsTsa
      ensures Valid() && View() == EtsCfg(m, at, old(View()))
    {
      var b := U8(m, at + 6);
      etsWilling, etsCbs, etsMaxtcs := b / 128, b / 64 % 2, b % 8;
      var offset := ReadPrioTable(m, at + 7, 8, etsPrio);
      offset := ReadTable(m, offset, etsBw);
      offset := ReadTable(m, offset, etsTsa);
    }

    method ParseIeeeEtsrec(m: Memory, at: nat)
      requires Valid() && at + 27 <= 4096
      modifies recPrio, recBw, recTsa
      ensures Valid() && View() == EtsRec(m, at, old(View()))
    {
      var offset := ReadPrioTable(m, at + 7, 8, recPrio);
      offset := ReadTable(m, offset, recBw);
      offset := ReadTable(m, offset, recTsa);
    }

    method ParseIeeePfccfg(m: Memory, at: nat)
      requires Valid() && at + 8 <= 4096
      modifies this`pfc
      ensures Valid() && View() == PfcCfg(m, at, old(View()))
    {
      var b := U8(m, at + 6);
      pfc := Pfc(b / 128, b / 64 % 2, b % 16, U8(m, at + 7));
    }

    /** The loop over the application table; the length it runs to has 16 bits. */
    method ParseIeeeApp(m: Memory, at: nat)
      requires Valid() && at + 7 + 3 * MAX_APPS <= 4096
      modifies this`numapps, app
      ensures Valid() && View() == IeeeApp(m, at, old(View()))
    {
      var length := AppLength(LengthOf(Word(m, at)));
      ghost var was := app[..];
      ghost var total := AppCount(length);
      var offset, i := 1, 0;
      while offset < length && i < MAX_APPS
        invariant offset == 1 + 3 * i && i <= total
        invariant app[..] == WithApps(was, AppsAt(m, at + 7, i))
        decreases MAX_APPS - i
      {
        app[i] := AppAt(m, at + 6 + offset);
        offset := offset + 3;
        i := i + 1;
        assert app[..] == WithApps(was, AppsAt(m, at + 7, i));
      }
      numapps := i;
    }

    method ParseIeee(m: Memory, at: nat)
      requires Valid() && at + 7 + 3 * MAX_APPS <= 4096
      modifies this, etsPrio, etsBw, etsTsa, recPrio, recBw, recTsa, app
      ensures Valid() && View() == Ieee(m, at, old(View()))
    {
      var subtype := U8(m, at + 5);
      if subtype == ETS_CFG {
        ParseIeeeEtscfg(m, at);
      } else if subtype == ETS_REC {
        ParseIeeeEtsrec(m, at);
      } else if subtype == PFC_CFG {
        ParseIeeePfccfg(m, at);
      } else if subtype == APP_PRI {
        ParseIeeeApp(m, at);
      }
    }

    method ParseCeePgcfg(m: Memory, at: nat)
      requires Valid() && at + 19 <= 4096
      modifies this`etsWilling, this`etsCbs, this`etsMaxtcs, etsPrio, etsBw
      ensures Valid() && View() == CeePg(m, at, old(View()))
    {
      if Willing(m, at) {
        etsWilling := 1;
      }
      etsCbs := 0;
      var offset := ReadPrioTable(m, at + 6, 16, etsPrio);
      offset := ReadTable(m, offset, etsBw);
      etsMaxtcs := U8(m, offset);
    }

    method ParseCeePfccfg(m: Memory, at: nat)
      requires Valid() && at + 8 <= 4096
      modifies this`pfc
      ensures Valid() && View() == CeePfc(m, at, old(View()))
    {
      if Willing(m, at) {
        pfc := pfc.(willing := 1);
      }
      pfc := pfc.(enable := U8(m, at + 6), cap := U8(m, at + 7));
    }

    /** The first user priority whose bit is set. */
    method FirstPriority(prioMap: nat) returns (up: nat)
      ensures up == FirstBit(prioMap, 0)
    {
      up := 0;
      while up < 8 && !HasBit(prioMap, up)
        invariant up <= 8 && FirstBit(prioMap, 0) == FirstBit(prioMap, up)
      {
        up := up + 1;
      }
    }

    method ParseCeeApp(m: Memory, at: nat)
      requires Valid() && at + 6 + 6 * MAX_APPS <= 4096
      modifies this`numapps, app
      ensures Valid() && View() == CeeApp(m, at, old(View()))
    {
      hide Word, U8;
      var total := LengthOf(Word(m, at)) / 6;
      if total > MAX_APPS {
        total := MAX_APPS;
      }
      numapps := total;
      ghost var was := app[..];
      var offset := 0;
      for i := 0 to total
        invariant offset == 6 * i && numapps == total
        invariant app[..] == WithApps(was, CeeAppsAt(m, at + 6, i))
      {
        var base := at + 6 + offset;
        var up := FirstPriority(U8(m, base + 5));
        var selector := U8(m, base + 2) % 4;
        if selector == 0 {
          selector := 1;
        } else if selector == 1 {
          selector := 2;
        }
        app[i] := App(up, selector, Word(m, base));
        offset := offset + 6;
        assert app[..] == WithApps(was, CeeAppsAt(m, at + 6, i + 1));
      }
    }

    method ParseCee(m: Memory, at: nat)
      requires Valid() && at <= ETH_HLEN + LLDPDU_SIZE
      modifies this, etsPrio, etsBw, etsTsa, recPrio, recBw, recTsa, app
      ensures Valid() && View() == Cee(m, at, old(View()))
    {
      hide CeePg, CeePfc, CeeApp, U8;
      if U8(m, at + 5) != CEE_TYPE || LengthOf(Word(m, at)) <= CEE_HEADER {
        return;
      }
      ghost var target := Features(m, at + CEE_HEADER, 0, View());
      var sub: nat, count: nat := at + CEE_HEADER, 0;
      while count < CEE_MAX_FEATURES
        invariant Valid() && count <= CEE_MAX_FEATURES
        invariant sub + 513 * (CEE_MAX_FEATURES - count) + 6 + 6 * MAX_APPS <= 4096
        invariant target == Features(m, sub, count, View())
        decreases CEE_MAX_FEATURES - count
      {
        var w := Word(m, sub);
        var t := TypeOf(w);
        if t == CEE_PG {
          ParseCeePgcfg(m, sub);
        } else if t == CEE_PFC {
          ParseCeePfccfg(m, sub);
        } else if t == CEE_APP {
          ParseCeeApp(m, sub);
        } else {
          return;
        }
        count := count + 1;
        sub := sub + 2 + LengthOf(w);
      }
    }

    /** `i40e_lldp_to_dcb_config`. */
    method LldpToDcbConfig(m: Memory)
      requires Valid()
      modifies this, etsPrio, etsBw, etsTsa, recPrio, recBw, recTsa, app
      ensures Valid() && View() == Walk(m, 0, old(View()))
    {
      ghost var target := Walk(m, 0, View());
      var offset, at := 0, ETH_HLEN;
      while true
        invariant Valid() && offset <= LLDPDU_SIZE && at == ETH_HLEN + offset
        invariant target == Walk(m, offset, View())
        decreases LLDPDU_SIZE - offset
      {
        var w := Word(m, at);
        var next := offset + 2 + LengthOf(w);
        if TypeOf(w) == TYPE_END || next > LLDPDU_SIZE {
          return;
        }
        if TypeOf(w) == TYPE_ORG {
          var oui := 0x1_0000 * U8(m, at + 2) + Word(m, at + 3);
          if oui == IEEE_OUI {
            ParseIeee(m, at);
          } else if oui == CEE_OUI {
            ParseCee(m, at);
          }
        }
        offset := next;
        at := at + 2 + LengthOf(w);
      }
    }
  }
}

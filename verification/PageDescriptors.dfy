/** The page descriptors of the host memory cache and their reference counts. */
module PageDescriptors {

  const PD_CNT_IN_SD := 512
  const TWO_32 := 0x1_0000_0000

  datatype Option<T> = None | Some(value: T)

  datatype SdType = Invalid | Paged | Direct

  datatype Status = Success | InvalidPageDescIndex | InvalidSdType | NoMemory | NotReady

  /** `struct i40e_hmc_pd_entry`: `addr` is the page's physical address, `rsrc` says it is the caller's. */
  datatype Entry = Entry(valid: bool, rsrc: bool, refCnt: nat, addr: nat)

  const UNUSED := Entry(false, false, 0, 0)

  /** Counts are 32 bits wide. */
  function Inc(x: nat): nat {
    (x + 1) % TWO_32
  }

  function Dec(x: nat): nat {
    if x == 0 then TWO_32 - 1 else x - 1
  }

  /** `pa | 0x1`. */
  function ValidBit(pa: nat): nat {
    if pa % 2 == 0 then pa + 1 else pa
  }

  // ----- What a table is -----

  function CountValid(es: seq<Entry>): nat {
    if |es| == 0 then 0 else CountValid(es[..|es| - 1]) + (if es[|es| - 1].valid then 1 else 0)
  }

  /** The page that was allocated for the entry, if one was. */
  function Own(e: Entry): multiset<nat> {
    if e.valid && !e.rsrc then multiset{e.addr} else multiset{}
  }

  /** The pages that were allocated for the table's entries. */
  function OwnPages(es: seq<Entry>): multiset<nat> {
    if |es| == 0 then multiset{} else OwnPages(es[..|es| - 1]) + Own(es[|es| - 1])
  }

  ghost predicate EntryOk(e: Entry, word: nat) {
    && (e.valid <==> e.refCnt > 0)
    && e.refCnt < TWO_32
    && word == if !e.valid then 0 else if e.addr % 2 == 0 then e.addr + 1 else e.addr
  }

  /** The reference count is the number of valid entries; an entry is valid exactly while it is counted,
      which is exactly when its hardware word carries its page. */
  ghost predicate TableOk(es: seq<Entry>, words: seq<nat>, refCnt: nat) {
    && |es| == |words| == PD_CNT_IN_SD
    && refCnt == CountValid(es)
    && forall i :: 0 <= i < |es| ==> EntryOk(es[i], words[i])
  }

  lemma {:induction false} CountUpdate(es: seq<Entry>, i: nat, e: Entry)
    requires i < |es|
    ensures CountValid(es[i := e]) == CountValid(es) + (if e.valid then 1 else 0) - (if es[i].valid then 1 else 0)
  {
    var n := |es| - 1;
    if i < n {
      assert es[i := e][..n] == es[..n][i := e];
      CountUpdate(es[..n], i, e);
    } else {
      assert es[i := e][..n] == es[..n];
    }
  }

  lemma MoveOne(x: multiset<nat>, x': multiset<nat>, last: multiset<nat>, was: multiset<nat>, now: multiset<nat>)
    requires x' + was == x + now
    ensures (x' + last) + was == (x + last) + now
  {
    calc {
      (x' + last) + was;
      (x' + was) + last;
      (x + now) + last;
      (x + last) + now;
    }
  }

  lemma {:induction false} OwnUpdate(es: seq<Entry>, i: nat, e: Entry)
    requires i < |es|
    ensures OwnPages(es[i := e]) + Own(es[i]) == OwnPages(es) + Own(e)
  {
    hide Own;
    var n := |es| - 1;
    if i < n {
      assert es[i := e][..n] == es[..n][i := e];
      OwnUpdate(es[..n], i, e);
      MoveOne(OwnPages(es[..n]), OwnPages(es[..n][i := e]), Own(es[n]), Own(es[i]), Own(e));
    } else {
      assert es[i := e][..n] == es[..n];
    }
  }

  lemma {:induction false} CountBound(es: seq<Entry>)
    ensures CountValid(es) <= |es|
  {
    if |es| > 0 {
      CountBound(es[..|es| - 1]);
    }
  }

  lemma {:induction false} CountPositive(es: seq<Entry>, i: nat)
    requires i < |es| && es[i].valid
    ensures CountValid(es) > 0
  {
    CountUpdate(es, i, UNUSED);
  }

  // ----- The two operations on a table -----

  /** A table, its hardware words and its count. */
  datatype Table = Table(es: seq<Entry>, words: seq<nat>, refCnt: nat) {
    ghost predicate Valid() {
      TableOk(es, words, refCnt)
    }
  }

  /** `i40e_add_pd_table_entry` on entry i; `page` is what the allocator would give. */
  function Added(t: Table, i: nat, rsrcPg: Option<nat>, page: Option<nat>): (Table, Status)
    requires i < |t.es| == |t.words|
  {
    var e := t.es[i];
    if e.valid then (t.(es := t.es[i := e.(refCnt := Inc(e.refCnt))]), Success)
    else if rsrcPg.None? && page.None? then (t, NoMemory)
    else
      var pa := if rsrcPg.Some? then rsrcPg.value else page.value;
      (Table(t.es[i := Entry(true, rsrcPg.Some?, Inc(e.refCnt), pa)], t.words[i := ValidBit(pa)], Inc(t.refCnt)),
          Success)
  }

  /** `i40e_remove_pd_bp` on entry i. */
  function Removed(t: Table, i: nat): Table
    requires i < |t.es| == |t.words|
  {
    var e := t.es[i].(refCnt := Dec(t.es[i].refCnt));
    if e.refCnt > 0 then t.(es := t.es[i := e])
    else Table(t.es[i := e.(valid := false)], t.words[i := 0], Dec(t.refCnt))
  }

  lemma Cancel(x: multiset<nat>, y: multiset<nat>, a: multiset<nat>)
    requires x + a == y + a
    ensures x == y
  {
    assert x == (x + a) - a;
    assert y == (y + a) - a;
  }

  lemma {:induction false} AddCounts(t: Table, i: nat, rsrcPg: Option<nat>, page: Option<nat>)
    requires t.Valid() && i < |t.es| && t.es[i].refCnt + 1 < TWO_32
    ensures Added(t, i, rsrcPg, page).0.Valid()
  {
    hide OwnPages, Own;
    var t' := Added(t, i, rsrcPg, page).0;
    assert EntryOk(t.es[i], t.words[i]);
    CountBound(t.es);
    if Added(t, i, rsrcPg, page).1 == Success {
      CountUpdate(t.es, i, t'.es[i]);
      assert t'.es == t.es[i := t'.es[i]];
      hide CountValid;
    }
  }

  lemma {:induction false} AddPages(t: Table, i: nat, rsrcPg: Option<nat>, page: Option<nat>)
    requires i < |t.es| == |t.words|
    ensures OwnPages(Added(t, i, rsrcPg, page).0.es) == OwnPages(t.es) +
              (if !t.es[i].valid && rsrcPg.None? && page.Some? then multiset{page.value} else multiset{})
  {
    hide OwnPages, Inc, ValidBit;
    var t' := Added(t, i, rsrcPg, page).0;
    if Added(t, i, rsrcPg, page).1 == Success {
      assert t'.es == t.es[i := t'.es[i]];
      OwnUpdate(t.es, i, t'.es[i]);
      if t.es[i].valid {
        Cancel(OwnPages(t'.es), OwnPages(t.es), Own(t.es[i]));
      }
    }
  }

  /** Adding keeps the accounts: a page is taken from the allocator exactly for a new entry without a
      page of the caller's. */
  lemma {:induction false} AddKeeps(t: Table, i: nat, rsrcPg: Option<nat>, page: Option<nat>)
    requires t.Valid() && i < |t.es| && t.es[i].refCnt + 1 < TWO_32
    ensures var (t', s) := Added(t, i, rsrcPg, page);
            && t'.Valid()
            && (s == NoMemory <==> !t.es[i].valid && rsrcPg.None? && page.None?)
            && OwnPages(t'.es) == OwnPages(t.es) +
                 (if !t.es[i].valid && rsrcPg.None? && page.Some? then multiset{page.value} else multiset{})
            && (s == Success ==> t'.es[i].valid && t'.es[i].refCnt == t.es[i].refCnt + 1)
            && (s == NoMemory ==> t' == t)
            && (t.es[i].valid ==> t'.es[i].addr == t.es[i].addr && t'.es[i].rsrc == t.es[i].rsrc)
            && (!t.es[i].valid && rsrcPg.Some? ==> t'.es[i].addr == rsrcPg.value && t'.es[i].rsrc)
            && (!t.es[i].valid && rsrcPg.None? && page.Some? ==> t'.es[i].addr == page.value && !t'.es[i].rsrc)
            && (forall k :: 0 <= k < |t.es| && k != i ==> t'.es[k] == t.es[k] && t'.words[k] == t.words[k])
  {
    hide OwnPages, CountValid, ValidBit;
    AddCounts(t, i, rsrcPg, page);
    AddPages(t, i, rsrcPg, page);
    assert EntryOk(t.es[i], t.words[i]);
  }

  lemma {:induction false} RemoveCounts(t: Table, i: nat)
    requires t.Valid() && i < |t.es| && t.es[i].valid
    ensures Removed(t, i).Valid()
  {
    hide OwnPages, Own, ValidBit;
    var t' := Removed(t, i);
    assert EntryOk(t.es[i], t.words[i]);
    CountUpdate(t.es, i, t'.es[i]);
    CountBound(t.es);
    CountPositive(t.es, i);
    assert t'.es == t.es[i := t'.es[i]];
  }

  lemma {:induction false} RemovePages(t: Table, i: nat)
    requires i < |t.es| == |t.words| && t.es[i].valid && t.es[i].refCnt > 0
    ensures OwnPages(Removed(t, i).es) + (if t.es[i].refCnt == 1 then Own(t.es[i]) else multiset{}) == OwnPages(t.es)
  {
    hide OwnPages, Inc, ValidBit;
    var t' := Removed(t, i);
    assert t'.es == t.es[i := t'.es[i]];
    OwnUpdate(t.es, i, t'.es[i]);
    if t.es[i].refCnt > 1 {
      Cancel(OwnPages(t'.es), OwnPages(t.es), Own(t.es[i]));
    }
  }

  /** A matching removal keeps the accounts: a page goes back exactly with its last reference, unless it
      is the caller's. */
  lemma {:induction false} RemoveKeeps(t: Table, i: nat)
    requires t.Valid() && i < |t.es| && t.es[i].valid
    ensures var t' := Removed(t, i);
            && t'.Valid()
            && t'.es[i].refCnt == t.es[i].refCnt - 1 && t'.es[i].addr == t.es[i].addr
            && t'.es[i].rsrc == t.es[i].rsrc && (t'.es[i].valid <==> t.es[i].refCnt > 1)
            && (forall k :: 0 <= k < |t.es| && k != i ==> t'.es[k] == t.es[k] && t'.words[k] == t.words[k])
            && OwnPages(t'.es) + (if t.es[i].refCnt == 1 then Own(t.es[i]) else multiset{}) == OwnPages(t.es)
  {
    hide OwnPages, CountValid, ValidBit, Own;
    assert EntryOk(t.es[i], t.words[i]);
    RemoveCounts(t, i);
    RemovePages(t, i);
  }

  /** A removal without an entry is not refused: the entry's count wraps round, and the accounts are kept
      exactly by the removals of valid entries. */
  lemma {:induction false} RemoveKeepsIffValid(t: Table, i: nat)
    requires t.Valid() && i < |t.es|
    ensures Removed(t, i).Valid() <==> t.es[i].valid
    ensures !t.es[i].valid ==> Removed(t, i).es[i] == t.es[i].(refCnt := 0xFFFF_FFFF)
  {
    assert EntryOk(t.es[i], t.words[i]);
    if t.es[i].valid {
      RemoveKeeps(t, i);
    } else {
      assert !EntryOk(Removed(t, i).es[i], Removed(t, i).words[i]);
    }
  }

  lemma ValidCount(t: Table)
    requires t.Valid()
    ensures t.refCnt <= PD_CNT_IN_SD
  {
    CountBound(t.es);
  }

  /** An add and a remove of the same entry cancel: count, validity and word are back. */
  lemma {:induction false} AddThenRemove(t: Table, i: nat, rsrcPg: Option<nat>, page: Option<nat>)
    requires t.Valid() && i < |t.es| && t.es[i].refCnt + 1 < TWO_32 && (rsrcPg.Some? || page.Some?)
    ensures var t' := Removed(Added(t, i, rsrcPg, page).0, i);
            && t'.words == t.words && t'.refCnt == t.refCnt
            && OwnPages(t'.es) == OwnPages(t.es)
            && t'.es[i].valid == t.es[i].valid && t'.es[i].refCnt == t.es[i].refCnt
  {
    hide OwnPages, CountValid, ValidBit;
    assert EntryOk(t.es[i], t.words[i]);
    ValidCount(t);
    AddKeeps(t, i, rsrcPg, page);
    var t1 := Added(t, i, rsrcPg, page).0;
    RemoveKeeps(t1, i);
    Cancel(OwnPages(Removed(t1, i).es), OwnPages(t.es), if t1.es[i].refCnt == 1 then Own(t1.es[i]) else multiset{});
    assert Removed(t1, i).words == t.words;
  }

  // ----- The cache -----

  lemma {:induction false} NoneValid(es: seq<Entry>)
    requires forall i :: 0 <= i < |es| ==> es[i] == UNUSED
    ensures CountValid(es) == 0 && OwnPages(es) == multiset{}
  {
    if |es| > 0 {
      NoneValid(es[..|es| - 1]);
    }
  }

  /** The page that goes back to the allocator when a reference to the entry is removed. */
  function GivenBack(e: Entry): Option<nat> {
    if e.refCnt == 1 && !e.rsrc then Some(e.addr) else None
  }

  lemma EntryAt(t: Table, i: nat)
    requires t.Valid() && i < PD_CNT_IN_SD
    ensures |t.es| == |t.words| == PD_CNT_IN_SD
    ensures (t.es[i].valid <==> t.es[i].refCnt > 0) && t.es[i].refCnt < TWO_32
    ensures t.es[i].valid ==> t.refCnt > 0
    ensures t.refCnt <= PD_CNT_IN_SD
  {
    assert EntryOk(t.es[i], t.words[i]);
    CountBound(t.es);
    if t.es[i].valid {
      CountPositive(t.es, i);
    }
  }

  function PageOf(page: Option<nat>): multiset<nat> {
    match page
    case Some(p) => multiset{p}
    case None => multiset{}
  }

  /** A matching removal, in terms of the page given back. */
  lemma {:induction false} RemoveBalance(t: Table, i: nat)
    requires t.Valid() && i < |t.es| && t.es[i].valid
    ensures Removed(t, i).Valid()
    ensures OwnPages(Removed(t, i).es) == OwnPages(t.es) - PageOf(GivenBack(t.es[i]))
  {
    hide OwnPages, CountValid, ValidBit;
    RemoveKeeps(t, i);
  }

  /** What the two branches of a removal leave and give back. */
  lemma {:induction false} RemovalBranches(t: Table, i: nat)
    requires t.Valid() && i < PD_CNT_IN_SD
    ensures |t.es| == |t.words| == PD_CNT_IN_SD
    ensures var e := t.es[i].(refCnt := Dec(t.es[i].refCnt));
            if e.refCnt > 0
            then Removed(t, i) == t.(es := t.es[i := e]) && GivenBack(t.es[i]) == None && t.es[i].refCnt != 1
            else
              && t.es[i].valid && t.es[i].refCnt == 1
              && Removed(t, i) == Table(t.es[i := e.(valid := false)], t.words[i := 0], Dec(t.refCnt))
              && GivenBack(t.es[i]) == if e.rsrc then None else Some(e.addr)
    ensures t.es[i].valid ==> t.refCnt > 0
    ensures t.es[i].valid ==>
              Removed(t, i).Valid() && OwnPages(Removed(t, i).es) == OwnPages(t.es) - PageOf(GivenBack(t.es[i]))
    ensures PageOf(None) == multiset{}
  {
    hide OwnPages, CountValid, ValidBit, EntryOk, TableOk;
    EntryAt(t, i);
    if t.es[i].valid {
      RemoveBalance(t, i);
    }
  }

  /** The table of one segment descriptor.  `held` says that its array of entries is allocated; `live` are
      the pages taken from the allocator and not given back. */
  class PdTable {
    const kind: SdType
    var entries: seq<Entry>
    var words: seq<nat>
    var refCnt: nat
    var held: bool
    var sdValid: bool
    ghost var live: multiset<nat>

    ghost function View(): Table
      reads this
    {
      Table(entries, words, refCnt)
    }

    ghost predicate Valid()
      reads this
    {
      View().Valid() && live == OwnPages(entries)
    }

    constructor (kind: SdType)
      ensures Valid() && this.kind == kind && held && sdValid && live == multiset{}
      ensures words == seq(PD_CNT_IN_SD, (i: nat) => 0) && refCnt == 0
      ensures |entries| == PD_CNT_IN_SD && forall i :: 0 <= i < PD_CNT_IN_SD ==> entries[i] == UNUSED
    {
      this.kind := kind;
      entries := seq(PD_CNT_IN_SD, (i: nat) => UNUSED);
      words := seq(PD_CNT_IN_SD, (i: nat) => 0);
      refCnt, held, sdValid, live := 0, true, true, multiset{};
      new;
      NoneValid(entries);
    }

    method Add(rel: nat, rsrcPg: Option<nat>, page: Option<nat>) returns (ret: Status)
      requires Valid() && held && rel < PD_CNT_IN_SD && entries[rel].refCnt + 1 < TWO_32
      modifies this`entries, this`words, this`refCnt, this`live
      ensures Valid() && (View(), ret) == Added(old(View()), rel, rsrcPg, page)
    {
      hide EntryOk, CountValid, OwnPages, ValidBit;
      ghost var before := entries;
      AddKeeps(View(), rel, rsrcPg, page);
      var e := entries[rel];
      if !e.valid {
        var pa := 0;
        if rsrcPg.Some? {
          pa := rsrcPg.value;
        } else if page.Some? {
          pa := page.value;
          live := live + multiset{pa};
        } else {
          return NoMemory;
        }
        entries := entries[rel := Entry(true, rsrcPg.Some?, e.refCnt, pa)];
        words := words[rel := ValidBit(pa)];
        refCnt := Inc(refCnt);
      }
      entries := entries[rel := entries[rel].(refCnt := Inc(entries[rel].refCnt))];
      assert entries == before[rel := entries[rel]];
      ret := Success;
    }

    /** The page given back is the entry's own.  The array of entries goes with the last of them, and then
        the allocator has every page back. */
    method Remove(rel: nat) returns (freed: Option<nat>)
      requires Valid() && held && rel < PD_CNT_IN_SD
      modifies this`entries, this`words, this`refCnt, this`held, this`live
      ensures rel < |old(entries)| == |old(words)| && View() == Removed(old(View()), rel)
      ensures old(entries[rel].valid) ==> Valid()
      ensures freed == GivenBack(old(entries[rel]))
      ensures held == !(old(entries[rel].refCnt) == 1 && old(refCnt) == 1)
      ensures !held ==> live == multiset{}
    {
      hide CountValid, OwnPages, TableOk, EntryOk, Own, ValidBit, Removed, GivenBack, PageOf;
      ghost var t := View();
      RemovalBranches(t, rel);
      var e := entries[rel].(refCnt := Dec(entries[rel].refCnt));
      if e.refCnt > 0 {
        entries := entries[rel := e];
        return None;
      }
      entries, words, refCnt := entries[rel := e.(valid := false)], words[rel := 0], Dec(refCnt);
      assert View() == Removed(t, rel);
      freed := if e.rsrc then None else Some(e.addr);
      live := live - PageOf(freed);
      if refCnt == 0 {
        held := false;
        NothingLeft(Removed(t, rel));
      }
    }
  }

  class HmcInfo {
    const sd: seq<PdTable>
    var sdRefCnt: nat

    ghost predicate Valid()
      reads this, sd
    {
      && (forall i, j :: 0 <= i < j < |sd| ==> sd[i] != sd[j])
      && forall i :: 0 <= i < |sd| ==> sd[i].Valid()
    }

    constructor (tables: seq<PdTable>)
      requires forall i, j :: 0 <= i < j < |tables| ==> tables[i] != tables[j]
      requires forall i :: 0 <= i < |tables| ==> tables[i].Valid()
      ensures Valid() && sd == tables && sdRefCnt == |tables|
    {
      sd, sdRefCnt := tables, |tables|;
    }

    /** `i40e_add_pd_table_entry`; a segment of another type is passed over without an error. */
    method AddPdTableEntry(pdIndex: nat, rsrcPg: Option<nat>, page: Option<nat>) returns (ret: Status)
      requires Valid()
      requires var s, i := pdIndex / 512, pdIndex % 512;
               s < |sd| ==> sd[s].held && i < |sd[s].entries| && sd[s].entries[i].refCnt + 1 < TWO_32
      modifies sd
      ensures Valid()
      ensures var s, i := pdIndex / 512, pdIndex % 512;
              if s >= |sd| then ret == InvalidPageDescIndex
              else if sd[s].kind != Paged then ret == Success && unchanged(sd[s])
              else i < old(|sd[s].entries|) == old(|sd[s].words|)
                   && (sd[s].View(), ret) == Added(old(sd[s].View()), i, rsrcPg, page)
      ensures forall s :: 0 <= s < |sd| && s != pdIndex / 512 ==> unchanged(sd[s])
    {
      var sdIdx, rel := pdIndex / PD_CNT_IN_SD, pdIndex % PD_CNT_IN_SD;
      if sdIdx >= |sd| {
        return InvalidPageDescIndex;
      }
      if sd[sdIdx].kind != Paged {
        return Success;
      }
      assert sd[sdIdx].Valid();
      ret := sd[sdIdx].Add(rel, rsrcPg, page);
    }

    /** `i40e_remove_pd_bp`; an entry that was never added is not refused, and the accounts are then off. */
    method RemovePdBp(idx: nat) returns (ret: Status, freed: Option<nat>)
      requires Valid()
      requires idx / 512 < |sd| ==> sd[idx / 512].held
      modifies sd
      ensures var s, i := idx / 512, idx % 512;
              s >= |sd| || sd[s].kind != Paged || (i < old(|sd[s].entries|) && old(sd[s].entries[i].valid)) ==> Valid()
      ensures var s, i := idx / 512, idx % 512;
              if s >= |sd| then ret == InvalidPageDescIndex && freed == None
              else if sd[s].kind != Paged then ret == InvalidSdType && freed == None && unchanged(sd[s])
              else i < old(|sd[s].entries|) == old(|sd[s].words|)
                   && ret == Success && sd[s].View() == Removed(old(sd[s].View()), i)
                   && freed == GivenBack(old(sd[s].entries[i]))
                   && sd[s].held == !(old(sd[s].entries[i].refCnt) == 1 && old(sd[s].refCnt) == 1)
                   && (!sd[s].held ==> sd[s].live == multiset{})
      ensures forall s :: 0 <= s < |sd| && s != idx / 512 ==> unchanged(sd[s])
    {
      var sdIdx, rel := idx / PD_CNT_IN_SD, idx % PD_CNT_IN_SD;
      freed := None;
      if sdIdx >= |sd| {
        return InvalidPageDescIndex, None;
      }
      if sd[sdIdx].kind != Paged {
        return InvalidSdType, None;
      }
      assert sd[sdIdx].Valid();
      freed := sd[sdIdx].Remove(rel);
      ret := Success;
    }

    /** `i40e_prep_remove_pd_page`: a table goes only when no entry of it is valid, and so with no page
        of its own left. */
    method PrepRemovePdPage(idx: nat) returns (ret: Status)
      requires Valid() && idx < |sd| && sdRefCnt > 0
      modifies this`sdRefCnt, sd[idx]
      ensures Valid() && sd[idx].View() == old(sd[idx].View())
      ensures ret == if CountValid(sd[idx].entries) > 0 then NotReady else Success
      ensures ret == Success ==> !sd[idx].sdValid && sdRefCnt == old(sdRefCnt) - 1 && sd[idx].live == multiset{}
      ensures ret == NotReady ==> sd[idx].sdValid == old(sd[idx].sdValid) && sdRefCnt == old(sdRefCnt)
    {
      assert sd[idx].Valid();
      if sd[idx].refCnt > 0 {
        return NotReady;
      }
      NoneLeft(sd[idx].entries);
      sd[idx].sdValid := false;
      sdRefCnt := sdRefCnt - 1;
      ret := Success;
    }
  }

  lemma NothingLeft(t: Table)
    requires t.Valid() && t.refCnt == 0
    ensures OwnPages(t.es) == multiset{}
  {
    NoneLeft(t.es);
  }

  lemma {:induction false} NoneLeft(es: seq<Entry>)
    requires CountValid(es) == 0
    ensures OwnPages(es) == multiset{}
  {
    if |es| > 0 {
      NoneLeft(es[..|es| - 1]);
    }
  }

  // ----- A table over all the calls of its life -----

  datatype Call = AddEntry(i: nat, rsrcPg: Option<nat>, page: Option<nat>) | RemoveEntry(i: nat)

  function EmptyTable(): (t: Table)
    ensures t.Valid() && |t.es| == |t.words| == PD_CNT_IN_SD && OwnPages(t.es) == multiset{}
    ensures forall i :: 0 <= i < PD_CNT_IN_SD ==> t.es[i].refCnt == 0
  {
    var es := seq(PD_CNT_IN_SD, (i: nat) => UNUSED);
    NoneValid(es);
    Table(es, seq(PD_CNT_IN_SD, (i: nat) => 0), 0)
  }

  /** How many references to entry i the callers hold, told from their calls alone. */
  function References(calls: seq<Call>, i: nat): nat {
    if |calls| == 0 then 0
    else
      var n := |calls| - 1;
      var before := References(calls[..n], i);
      match calls[n]
      case AddEntry(j, rsrcPg, page) =>
        if j == i && (before > 0 || rsrcPg.Some? || page.Some?) then before + 1 else before
      case RemoveEntry(j) => if j == i && before > 0 then before - 1 else before
  }

  /** The table after the calls. */
  function After(calls: seq<Call>): (t: Table)
    requires forall k :: 0 <= k < |calls| ==> calls[k].i < PD_CNT_IN_SD
    ensures |t.es| == |t.words| == PD_CNT_IN_SD
  {
    if |calls| == 0 then EmptyTable()
    else
      var n := |calls| - 1;
      match calls[n]
      case AddEntry(i, rsrcPg, page) => Added(After(calls[..n]), i, rsrcPg, page).0
      case RemoveEntry(i) => Removed(After(calls[..n]), i)
  }

  /** The array of entries goes with the removal that leaves no entry. */
  predicate IsHeld(calls: seq<Call>)
    requires forall k :: 0 <= k < |calls| ==> calls[k].i < PD_CNT_IN_SD
  {
    |calls| == 0 ||
    (IsHeld(calls[..|calls| - 1]) && (calls[|calls| - 1].RemoveEntry? ==> After(calls).refCnt != 0))
  }

  /** Every removal answers an add, counts stay below 32 bits, and no call comes once the array is gone. */
  predicate Matched(calls: seq<Call>) {
    |calls| == 0 ||
    (var n := |calls| - 1;
     var c, rest := calls[n], calls[..n];
     && Matched(rest) && c.i < PD_CNT_IN_SD
     && (forall k :: 0 <= k < n ==> rest[k].i < PD_CNT_IN_SD) && IsHeld(rest)
     && (c.RemoveEntry? ==> References(rest, c.i) > 0)
     && (c.AddEntry? ==> References(rest, c.i) + 1 < TWO_32))
  }

  /** The pages the calls take from the allocator. */
  function Taken(calls: seq<Call>): multiset<nat> {
    if |calls| == 0 then multiset{}
    else
      var n := |calls| - 1;
      Taken(calls[..n]) +
      match calls[n]
      case AddEntry(i, None, Some(page)) => if References(calls[..n], i) == 0 then multiset{page} else multiset{}
      case _ => multiset{}
  }

  /** The pages the calls give back. */
  function Returned(calls: seq<Call>): multiset<nat>
    requires forall k :: 0 <= k < |calls| ==> calls[k].i < PD_CNT_IN_SD
  {
    if |calls| == 0 then multiset{}
    else
      var n := |calls| - 1;
      Returned(calls[..n]) +
      if calls[n].RemoveEntry? then PageOf(GivenBack(After(calls[..n]).es[calls[n].i])) else multiset{}
  }

  /** The table shows the calls made on it. */
  ghost predicate Shows(t: Table, calls: seq<Call>)
    requires forall k :: 0 <= k < |calls| ==> calls[k].i < PD_CNT_IN_SD
  {
    && t.Valid()
    && (forall i :: 0 <= i < |t.es| ==> t.es[i].refCnt == References(calls, i))
    && OwnPages(t.es) + Returned(calls) == Taken(calls)
  }

  lemma MatchedRest(calls: seq<Call>)
    requires Matched(calls)
    ensures forall k :: 0 <= k < |calls| ==> calls[k].i < PD_CNT_IN_SD
  {
    hide IsHeld, References;
    if |calls| > 0 {
      var n := |calls| - 1;
      forall k | 0 <= k < |calls| ensures calls[k].i < PD_CNT_IN_SD {
        if k < n {
          assert calls[k] == calls[..n][k];
        }
      }
    }
  }

  lemma Rebalance(x: multiset<nat>, x': multiset<nat>, a: multiset<nat>, b: multiset<nat>, r: multiset<nat>,
                  t: multiset<nat>)
    requires x' + b == x + a && x + r == t
    ensures x' + (r + b) == t + a
  {
    calc {
      x' + (r + b);
      (x' + b) + r;
      (x + a) + r;
      (x + r) + a;
      t + a;
    }
  }

  lemma {:induction false} AddCountsReferences(t: Table, calls: seq<Call>, c: Call)
    requires c.AddEntry? && t.Valid() && c.i < PD_CNT_IN_SD == |t.es| && References(calls, c.i) + 1 < TWO_32
    requires forall i :: 0 <= i < |t.es| ==> t.es[i].refCnt == References(calls, i)
    ensures var t' := Added(t, c.i, c.rsrcPg, c.page).0;
            forall i :: 0 <= i < |t'.es| ==> t'.es[i].refCnt == References(calls + [c], i)
  {
    hide OwnPages, CountValid, ValidBit, TableOk, EntryOk;
    assert (calls + [c])[..|calls|] == calls && (calls + [c])[|calls|] == c;
    EntryAt(t, c.i);
  }

  lemma AddTakes(calls: seq<Call>, c: Call)
    requires c.AddEntry? && c.i < PD_CNT_IN_SD && forall k :: 0 <= k < |calls| ==> calls[k].i < PD_CNT_IN_SD
    ensures Returned(calls + [c]) == Returned(calls)
    ensures Taken(calls + [c]) == Taken(calls) +
              (if References(calls, c.i) == 0 && c.rsrcPg.None? && c.page.Some? then multiset{c.page.value}
               else multiset{})
  {
    hide After, References;
    assert (calls + [c])[..|calls|] == calls && (calls + [c])[|calls|] == c;
  }

  lemma {:induction false} AddShows(t: Table, calls: seq<Call>, c: Call)
    requires forall k :: 0 <= k < |calls| ==> calls[k].i < PD_CNT_IN_SD
    requires c.AddEntry? && c.i < PD_CNT_IN_SD && References(calls, c.i) + 1 < TWO_32
    requires Shows(t, calls)
    ensures Shows(Added(t, c.i, c.rsrcPg, c.page).0, calls + [c])
  {
    hide OwnPages, CountValid, ValidBit, TableOk, EntryOk, References, Taken, Returned, Added;
    EntryAt(t, c.i);
    AddKeeps(t, c.i, c.rsrcPg, c.page);
    AddCountsReferences(t, calls, c);
    AddTakes(calls, c);
    Rebalance(OwnPages(t.es), OwnPages(Added(t, c.i, c.rsrcPg, c.page).0.es),
              if !t.es[c.i].valid && c.rsrcPg.None? && c.page.Some? then multiset{c.page.value} else multiset{},
              multiset{}, Returned(calls), Taken(calls));
  }

  lemma {:induction false} RemoveShows(t: Table, calls: seq<Call>, c: Call)
    requires forall k :: 0 <= k < |calls| ==> calls[k].i < PD_CNT_IN_SD
    requires c.RemoveEntry? && c.i < PD_CNT_IN_SD && References(calls, c.i) > 0
    requires t == After(calls) && Shows(t, calls)
    ensures Shows(Removed(t, c.i), calls + [c])
  {
    hide OwnPages, CountValid, ValidBit, TableOk, EntryOk, IsHeld, After, Own, PageOf;
    var t' := Removed(t, c.i);
    var run := calls + [c];
    assert run[..|run| - 1] == calls && run[|run| - 1] == c;
    EntryAt(t, c.i);
    RemoveKeeps(t, c.i);
    OwnGivenBack(t.es[c.i]);
    forall i | 0 <= i < |t'.es| ensures t'.es[i].refCnt == References(run, i) {
    }
    Rebalance(OwnPages(t.es), OwnPages(t'.es), multiset{}, PageOf(GivenBack(t.es[c.i])),
              Returned(calls), Taken(calls));
  }

  lemma OwnGivenBack(e: Entry)
    requires e.valid
    ensures PageOf(GivenBack(e)) == if e.refCnt == 1 then Own(e) else multiset{}
  {
  }

  /** Over any calls whose removals answer adds: the reference counts are the references the callers hold,
      the table's count is the number of entries with one, and the pages taken from the allocator are those
      given back and those the table still has. */
  lemma {:induction false} CallsBalance(calls: seq<Call>)
    requires Matched(calls)
    ensures forall k :: 0 <= k < |calls| ==> calls[k].i < PD_CNT_IN_SD
    ensures Shows(After(calls), calls)
    decreases |calls|
  {
    MatchedRest(calls);
    if |calls| > 0 {
      var n := |calls| - 1;
      assert calls == calls[..n] + [calls[n]];
      CallsBalance(calls[..n]);
      match calls[n]
      case AddEntry(_, _, _) => AddShows(After(calls[..n]), calls[..n], calls[n]);
      case RemoveEntry(_) => RemoveShows(After(calls[..n]), calls[..n], calls[n]);
    }
  }

  lemma HeldUntilEmpty(calls: seq<Call>)
    requires Matched(calls)
    ensures forall k :: 0 <= k < |calls| ==> calls[k].i < PD_CNT_IN_SD
    ensures !IsHeld(calls) <==> |calls| > 0 && calls[|calls| - 1].RemoveEntry? && After(calls).refCnt == 0
  {
    hide References, After;
    MatchedRest(calls);
  }

  lemma {:induction false} NoneCounted(es: seq<Entry>)
    requires forall i :: 0 <= i < |es| ==> !es[i].valid
    ensures CountValid(es) == 0
  {
    if |es| > 0 {
      NoneCounted(es[..|es| - 1]);
    }
  }

  /** No entry is counted exactly when no entry has a reference. */
  lemma {:induction false} NoReferences(t: Table)
    requires t.Valid()
    ensures t.refCnt == 0 <==> forall i :: 0 <= i < |t.es| ==> t.es[i].refCnt == 0
  {
    hide ValidBit;
    if t.refCnt == 0 {
      forall i | 0 <= i < |t.es| ensures t.es[i].refCnt == 0 {
        EntryAt(t, i);
      }
    } else if forall i :: 0 <= i < |t.es| ==> t.es[i].refCnt == 0 {
      forall i | 0 <= i < |t.es| ensures !t.es[i].valid {
        assert EntryOk(t.es[i], t.words[i]);
      }
      NoneCounted(t.es);
    }
  }

  lemma {:induction false} NoneHeld(calls: seq<Call>)
    requires Matched(calls)
    ensures forall k :: 0 <= k < |calls| ==> calls[k].i < PD_CNT_IN_SD
    ensures After(calls).refCnt == 0 <==> forall i :: 0 <= i < PD_CNT_IN_SD ==> References(calls, i) == 0
  {
    hide OwnPages, CountValid, EntryOk, ValidBit, Returned, Taken, References, Added, Removed, Matched;
    MatchedRest(calls);
    CallsBalance(calls);
    var t := After(calls);
    NoReferences(t);
    if t.refCnt == 0 {
      forall i | 0 <= i < PD_CNT_IN_SD ensures References(calls, i) == 0 {
        assert t.es[i].refCnt == 0;
      }
    } else {
      var i :| 0 <= i < |t.es| && t.es[i].refCnt != 0;
      assert References(calls, i) != 0;
    }
  }

  /** The array of entries is gone exactly when the last call was the removal of the last reference, and
      then the allocator has every page back. */
  lemma {:induction false} GoneIffNoReferences(calls: seq<Call>)
    requires Matched(calls)
    ensures forall k :: 0 <= k < |calls| ==> calls[k].i < PD_CNT_IN_SD
    ensures !IsHeld(calls) <==> |calls| > 0 && calls[|calls| - 1].RemoveEntry?
                                && forall i :: 0 <= i < PD_CNT_IN_SD ==> References(calls, i) == 0
    ensures !IsHeld(calls) ==> Returned(calls) == Taken(calls)
  {
    hide OwnPages, CountValid, EntryOk, ValidBit, Returned, Taken, Added, Removed;
    MatchedRest(calls);
    CallsBalance(calls);
    HeldUntilEmpty(calls);
    NoneHeld(calls);
    if !IsHeld(calls) {
      NothingLeft(After(calls));
    }
  }
}

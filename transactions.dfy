/** The transaction page (`views/gestione_eft.py`): the validated form that
    appends a new transaction, and the deletion of the selected ones. */
module Transactions {
  import opened Values
  import opened Dates
  import opened Frames
  import opened Schema
  import opened Seqs
  import opened Session

  // ---------------------------------------------------------------------
  // New transaction

  /** The values the form holds when it is submitted (lines 16-31). */
  datatype Form = Form(
    ticker: string,
    quantity: real,
    purchasePrice: real,
    purchaseDate: Date,
    currentPrice: real,
    currency: string,
    issuer: string,
    fee: real,
    broker: string,
    purchaseFees: real,
    isTest: bool,
    isin: string)

  /** Line 38: the mandatory fields are filled in with usable values. */
  predicate Complete(f: Form) {
    && f.ticker != ""
    && f.quantity > 0.0
    && f.purchasePrice > 0.0
    && f.currentPrice >= 0.0
    && f.issuer != ""
  }

  /** The thirteen keys of a transaction saved by the form. */
  const TransactionKeys: set<string> :=
    {Ticker, Quantity, PurchasePrice, PurchaseDate, CurrentPrice, Currency, Issuer,
     Fee, Broker, PurchaseFees, TestFlag, Isin, InsertedAt}

  /** Lines 41-55: the record built from an accepted form; `now` is the
      insertion time as "%Y-%m-%d %H:%M:%S" text. */
  function NewTransaction(f: Form, now: string): (t: Record)
    requires ValidDate(f.purchaseDate)
    ensures t.Keys == TransactionKeys
    ensures t[Ticker] == Text(Upper(f.ticker))
    ensures t[Isin] == Text(if f.isin == "" then "" else Upper(f.isin))
  {
    map[
      Ticker := Text(Upper(f.ticker)),
      Quantity := Num(f.quantity),
      PurchasePrice := Num(f.purchasePrice),
      PurchaseDate := Text(FormatIso(f.purchaseDate)),
      CurrentPrice := Num(f.currentPrice),
      Currency := Text(f.currency),
      Issuer := Text(f.issuer),
      Fee := Num(f.fee),
      Broker := Text(f.broker),
      PurchaseFees := Num(f.purchaseFees),
      TestFlag := Flag(f.isTest),
      Isin := Text(if f.isin == "" then "" else Upper(f.isin)),
      InsertedAt := Text(now)]
  }

  /** The purchase date is stored as ISO text that reads back as the date
      chosen in the form. */
  lemma NewTransactionDate(f: Form, now: string)
    requires ValidDate(f.purchaseDate)
    ensures var t := NewTransaction(f, now);
      t[PurchaseDate].Text? && ParseIso(t[PurchaseDate].s) == Some(f.purchaseDate)
  {
    assert NewTransaction(f, now)[PurchaseDate] == Text(FormatIso(f.purchaseDate));
    IsoRoundTrip(f.purchaseDate);
  }

  /** The numbers and the test flag are stored as entered, with the
      insertion time. */
  lemma NewTransactionValues(f: Form, now: string)
    requires ValidDate(f.purchaseDate)
    ensures var t := NewTransaction(f, now);
      && t[Quantity] == Num(f.quantity) && t[PurchasePrice] == Num(f.purchasePrice)
      && t[CurrentPrice] == Num(f.currentPrice) && t[TestFlag] == Flag(f.isTest)
      && t[InsertedAt] == Text(now)
  {
  }

  /** Lines 37-57: a submitted, complete form appends exactly one record at
      the end of the list; anything else leaves the list as it was. */
  method SaveTransaction(st: State, submitted: bool, f: Form, now: string) returns (saved: bool)
    requires ValidDate(f.purchaseDate)
    modifies st
    ensures saved <==> submitted && Complete(f)
    ensures saved ==> st.etfData == old(st.etfData) + [NewTransaction(f, now)]
    ensures saved ==> |st.etfData| == |old(st.etfData)| + 1 && st.etfData[..|old(st.etfData)|] == old(st.etfData)
    ensures saved ==> st.etfData[|old(st.etfData)|][Ticker] == Text(Upper(f.ticker))
    ensures !saved ==> st.etfData == old(st.etfData)
    ensures st.etfDetails == old(st.etfDetails)
  {
    saved := false;
    if submitted {
      if Complete(f) {
        st.etfData := st.etfData + [NewTransaction(f, now)];
        saved := true;
      }
    }
  }

  // ---------------------------------------------------------------------
  // Deletion

  /** Lines 81 and 90: "<Ticker> - <Data acquisto> - <Quantità> quote", with
      `show` giving Python's `str` of each value; None when the record lacks
      one of the three keys (the page then fails with a KeyError). */
  function Describe(t: Record, show: Cell -> string): (d: Option<string>)
    ensures d.Some? <==> Ticker in t && PurchaseDate in t && Quantity in t
    ensures d.Some? ==> d.value == show(t[Ticker]) + " - " + show(t[PurchaseDate]) + " - " + show(t[Quantity]) + " quote"
  {
    if Ticker in t && PurchaseDate in t && Quantity in t
    then Some(show(t[Ticker]) + " - " + show(t[PurchaseDate]) + " - " + show(t[Quantity]) + " quote")
    else None
  }

  /** The record's description is among the selected ones. */
  predicate Chosen(t: Record, selection: seq<string>, show: Cell -> string) {
    Describe(t, show).Some? && Describe(t, show).value in selection
  }

  predicate Described(data: seq<Record>, show: Cell -> string) {
    forall i :: 0 <= i < |data| ==> Describe(data[i], show).Some?
  }

  /** The test a record must fail to be deleted, as a function value. */
  function Kept(selection: seq<string>, show: Cell -> string): (keep: Record -> bool)
    ensures forall t :: keep(t) == !Chosen(t, selection, show)
  {
    t => !Chosen(t, selection, show)
  }

  function Picked(selection: seq<string>, show: Cell -> string): (pick: Record -> bool)
    ensures forall t :: pick(t) == Chosen(t, selection, show)
  {
    t => Chosen(t, selection, show)
  }

  /** The records that survive a deletion: none of them is chosen. */
  function Survivors(data: seq<Record>, selection: seq<string>, show: Cell -> string): (r: seq<Record>)
    ensures |r| <= |data|
    ensures forall i :: 0 <= i < |r| ==> !Chosen(r[i], selection, show)
  {
    Where(data, Kept(selection, show))
  }

  /** Lines 88-92: the indices of the chosen records, in increasing order. */
  function Doomed(data: seq<Record>, selection: seq<string>, show: Cell -> string): (ix: seq<nat>)
    ensures forall j :: 0 <= j < |ix| ==> ix[j] < |data| && Chosen(data[ix[j]], selection, show)
  {
    PositionsQualify(data, Picked(selection, show));
    Positions(data, Picked(selection, show))
  }

  /** The outcome of the delete button. */
  datatype DeleteOutcome =
    | NotShown        // no records, or no column to describe them by
    | NotRequested    // nothing selected or the button not pressed
    | Failed          // a record lacks a key of its description
    | Deleted(count: nat)

  /** The survivors are exactly the records not chosen, in their order, and
      their number is the length minus the number of chosen indices. */
  lemma SurvivorsSpec(data: seq<Record>, selection: seq<string>, show: Cell -> string)
    ensures forall t :: t in Survivors(data, selection, show) <==> t in data && !Chosen(t, selection, show)
    ensures Subsequence(Survivors(data, selection, show), data)
    ensures |Survivors(data, selection, show)| == |data| - |Doomed(data, selection, show)|
  {
    var keep := Kept(selection, show);
    PositionsCount(data, Picked(selection, show));
    WhereOrdered(data, keep);
    WhereComplement(data, Picked(selection, show), keep);
    WhereMembers(data, keep);
    var r := Survivors(data, selection, show);
    forall t | t in r ensures t in data && !Chosen(t, selection, show) {
      var i :| 0 <= i < |r| && r[i] == t;
    }
    forall t | t in data && !Chosen(t, selection, show) ensures t in r {
      var i :| 0 <= i < |data| && data[i] == t;
    }
  }

  /** Two records with the same description share their fate: both go when
      it is selected, both stay when it is not. */
  lemma SameDescriptionSameFate(data: seq<Record>, selection: seq<string>, show: Cell -> string, i: int, j: int)
    requires 0 <= i < |data| && 0 <= j < |data|
    requires Describe(data[i], show).Some? && Describe(data[i], show) == Describe(data[j], show)
    ensures (i in Doomed(data, selection, show)) <==> (j in Doomed(data, selection, show))
  {
    var ix := Doomed(data, selection, show);
    PositionsSpec(data, Picked(selection, show));
    if i in ix {
      var a :| 0 <= a < |ix| && ix[a] == i;
    }
    if j in ix {
      var b :| 0 <= b < |ix| && ix[b] == j;
    }
  }

  /** The cut point after the indices `ix[j..]` have been popped: everything
      before it is untouched. */
  function Cut(ix: seq<nat>, j: nat, n: nat): nat
    requires j <= |ix|
  {
    if j < |ix| then ix[j] else n
  }

  /** Between two consecutive chosen indices no record is chosen. */
  lemma Gap(data: seq<Record>, selection: seq<string>, show: Cell -> string, j: nat)
    requires var ix := Doomed(data, selection, show); j <= |ix|
    ensures var ix := Doomed(data, selection, show);
      var c := Cut(ix, j, |data|);
      && c <= |data|
      && (j > 0 ==> ix[j - 1] < c)
      && forall pos :: (if j > 0 then ix[j - 1] + 1 else 0) <= pos < c ==> !Chosen(data[pos], selection, show)
  {
    var ix := Doomed(data, selection, show);
    PositionsSpec(data, Picked(selection, show));
    var c := Cut(ix, j, |data|);
    var lo := if j > 0 then ix[j - 1] + 1 else 0;
    forall pos | lo <= pos < c ensures !Chosen(data[pos], selection, show) {
      assert Picked(selection, show)(data[pos]) ==> pos in ix;
    }
  }

  /** Lines 88-92: the indices whose description is selected, collected in
      one pass in increasing order. */
  method CollectChosen(data: seq<Record>, selection: seq<string>, show: Cell -> string)
    returns (doomed: seq<nat>)
    requires Described(data, show)
    ensures doomed == Doomed(data, selection, show)
  {
    doomed := [];
    for idx := 0 to |data|
      invariant doomed == Doomed(data[..idx], selection, show)
    {
      assert data[..idx + 1][..idx] == data[..idx];
      var description := Describe(data[idx], show).value;
      if description in selection {
        doomed := doomed + [idx];
      }
    }
    assert data[..|data|] == data;
  }

  /** The list once the chosen indices from the `j`-th on (counted from 0)
      have been popped: untouched before the cut, filtered from it. */
  ghost function Popped(data: seq<Record>, selection: seq<string>, show: Cell -> string, j: nat): seq<Record>
    requires j <= |Doomed(data, selection, show)|
  {
    var c := Cut(Doomed(data, selection, show), j, |data|);
    data[..c] + Where(data[c..], Kept(selection, show))
  }

  /** Before any pop the list is the data itself. */
  lemma PoppedNone(data: seq<Record>, selection: seq<string>, show: Cell -> string)
    ensures Popped(data, selection, show, |Doomed(data, selection, show)|) == data
  {
    assert data[|data|..] == [];
    assert data[..|data|] == data;
  }

  /** Popping the `j`-th chosen index, counted from 1, from the list in
      which the later ones are already popped pops it too. */
  lemma PopStep(data: seq<Record>, selection: seq<string>, show: Cell -> string, j: nat)
    requires 0 < j <= |Doomed(data, selection, show)|
    ensures var idx := Doomed(data, selection, show)[j - 1];
      var cur := Popped(data, selection, show, j);
      && idx < |cur|
      && cur[..idx] + cur[idx + 1..] == Popped(data, selection, show, j - 1)
  {
    var ix := Doomed(data, selection, show);
    var keep := Kept(selection, show);
    var idx := ix[j - 1];
    var c := Cut(ix, j, |data|);
    Gap(data, selection, show, j);
    PositionsQualify(data, Picked(selection, show));
    assert !keep(data[idx]) by {
      assert Picked(selection, show)(data[idx]);
    }
    assert forall pos :: idx + 1 <= pos < c ==> keep(data[pos]);
    RemoveBeforeFiltered(data, keep, idx, c);
    assert Cut(ix, j - 1, |data|) == idx;
  }

  /** Once every chosen index is popped, the survivors are left. */
  lemma PoppedAll(data: seq<Record>, selection: seq<string>, show: Cell -> string)
    ensures Popped(data, selection, show, 0) == Survivors(data, selection, show)
  {
    Gap(data, selection, show, 0);
    FilteredFrom(data, Kept(selection, show), Cut(Doomed(data, selection, show), 0, |data|));
  }

  /** Lines 95-96 on the list itself: the collected indices popped from the
      largest down leave exactly the survivors. */
  method PopIndices(data: seq<Record>, selection: seq<string>, show: Cell -> string, doomed: seq<nat>)
    returns (list: seq<Record>)
    requires doomed == Doomed(data, selection, show)
    ensures list == Survivors(data, selection, show)
  {
    list := data;
    var j := |doomed|;
    PoppedNone(data, selection, show);
    while j > 0
      invariant 0 <= j <= |doomed|
      invariant list == Popped(data, selection, show, j)
    {
      var idx := doomed[j - 1];
      PopStep(data, selection, show, j);
      list := list[..idx] + list[idx + 1..];
      j := j - 1;
    }
    PoppedAll(data, selection, show);
  }

  /** Lines 95-96: the session's list becomes the survivors. */
  method PopChosen(st: State, selection: seq<string>, show: Cell -> string, doomed: seq<nat>)
    requires doomed == Doomed(st.etfData, selection, show)
    modifies st
    ensures st.etfData == Survivors(old(st.etfData), selection, show)
    ensures st.etfDetails == old(st.etfDetails)
  {
    st.etfData := PopIndices(st.etfData, selection, show, doomed);
  }

  /** Line 81: every record has the keys of its description. */
  method AllDescribed(data: seq<Record>, show: Cell -> string) returns (ok: bool)
    ensures ok <==> Described(data, show)
  {
    var i := 0;
    while i < |data|
      invariant 0 <= i <= |data|
      invariant forall m :: 0 <= m < i ==> Describe(data[m], show).Some?
    {
      if Describe(data[i], show).None? {
        return false;
      }
      i := i + 1;
    }
    return true;
  }

  /** Lines 63-100: when the list is shown, described and a selection is
      confirmed, the chosen records are deleted and their number reported. */
  method DeleteSelected(st: State, selection: seq<string>, clicked: bool, show: Cell -> string)
    returns (outcome: DeleteOutcome)
    modifies st
    ensures outcome == NotShown <==> old(st.etfData) == [] || AllKeys(old(st.etfData)) == {}
    ensures outcome == Failed <==> outcome != NotShown && !Described(old(st.etfData), show)
    ensures outcome == NotRequested <==>
      outcome != NotShown && outcome != Failed && (selection == [] || !clicked)
    ensures outcome.Deleted? ==> st.etfData == Survivors(old(st.etfData), selection, show)
    ensures outcome.Deleted? ==>
      outcome.count == |Doomed(old(st.etfData), selection, show)| == |old(st.etfData)| - |st.etfData|
    ensures !outcome.Deleted? ==> st.etfData == old(st.etfData)
    ensures st.etfDetails == old(st.etfDetails)
  {
    var data := st.etfData;
    if data == [] || AllKeys(data) == {} {
      return NotShown;
    }
    var described := AllDescribed(data, show);
    if !described {
      return Failed;
    }
    if selection == [] || !clicked {
      return NotRequested;
    }
    var doomed := CollectChosen(data, selection, show);
    PopChosen(st, selection, show, doomed);
    SurvivorsSpec(data, selection, show);
    outcome := Deleted(|doomed|);
  }
}

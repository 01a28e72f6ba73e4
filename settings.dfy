/** The settings page (`views/impostazioni.py`): the holdings upload, the
    restore from a backup, the purge of test transactions and the reset. */
module Settings {
  import opened Values
  import opened Schema
  import opened Seqs
  import opened Session
  import opened Database

  // ---------------------------------------------------------------------
  // Holdings upload

  /** Line 58: uploaded holdings always go under this ETF ticker. */
  const UploadTicker: string := "TEST_ETF"

  /** Lines 56-58: the uploaded records become the session's holdings
      details, and are inserted into the holdings table under "TEST_ETF". */
  method UploadHoldings(st: State, table: HoldingsTable, records: seq<Record>, accepts: Record -> bool)
    returns (results: seq<Record>, failed: bool)
    modifies st, table
    ensures st.etfDetails == records && st.etfData == old(st.etfData)
    ensures |results| <= |records|
    ensures results == HoldingRows(UploadTicker, records[..|results|])
    ensures table.rows == old(table.rows) + results
    ensures failed <==> |results| < |records|
    ensures failed ==> !accepts(HoldingRow(UploadTicker, records[|results|]))
    ensures forall i :: 0 <= i < |results| ==> accepts(results[i])
  {
    st.etfDetails := records;
    results, failed := table.InsertHoldings(UploadTicker, records, accepts);
  }

  /** Every row the upload stores is under "TEST_ETF", whatever the file. */
  lemma UploadUnderTestEtf(records: seq<Record>, n: nat)
    requires n <= |records|
    ensures forall i :: 0 <= i < n ==> HoldingRows(UploadTicker, records[..n])[i][EtfTickerColumn] == Text("TEST_ETF")
  {
    RowsCarryTicker(UploadTicker, records[..n]);
  }

  // ---------------------------------------------------------------------
  // Restore

  /** Line 151: the backup replaces the whole list of transactions; nothing
      of the old list is merged in. */
  method RestoreBackup(st: State, data: seq<Record>, clicked: bool)
    modifies st
    ensures clicked ==> st.etfData == data
    ensures !clicked ==> st.etfData == old(st.etfData)
    ensures st.etfDetails == old(st.etfDetails)
  {
    if clicked {
      st.etfData := data;
    }
  }

  // ---------------------------------------------------------------------
  // Purge of test transactions

  /** Line 174: `t.get('Transazione prova', False)` is truthy; a record
      without the key is not a test. */
  predicate IsTest(t: Record) {
    Truthy(GetOr(t, TestFlag, Flag(false)))
  }

  function NotTest(): (p: Record -> bool)
    ensures forall t :: p(t) == !IsTest(t)
  {
    t => !IsTest(t)
  }

  function Test(): (p: Record -> bool)
    ensures forall t :: p(t) == IsTest(t)
  {
    t => IsTest(t)
  }

  /** Lines 172-175: the records that are not tests, in their order. */
  function Purged(data: seq<Record>): (r: seq<Record>)
    ensures |r| <= |data|
    ensures forall i :: 0 <= i < |r| ==> !IsTest(r[i])
  {
    Where(data, NotTest())
  }

  /** The purge keeps exactly the non-test records, in order, and removes as
      many records as there are tests. */
  lemma PurgedSpec(data: seq<Record>)
    ensures forall i :: 0 <= i < |Purged(data)| ==> !IsTest(Purged(data)[i])
    ensures forall i :: 0 <= i < |data| && !IsTest(data[i]) ==> data[i] in Purged(data)
    ensures forall i :: 0 <= i < |Purged(data)| ==> Purged(data)[i] in data
    ensures Subsequence(Purged(data), data)
    ensures |data| - |Purged(data)| == |Where(data, Test())|
  {
    WhereMembers(data, NotTest());
    WhereOrdered(data, NotTest());
    WhereComplement(data, Test(), NotTest());
  }

  /** A record without the flag, or with a false one, is never purged. */
  lemma UnflaggedKept(data: seq<Record>, i: int)
    requires 0 <= i < |data|
    requires TestFlag !in data[i] || data[i][TestFlag] == Flag(false)
    ensures data[i] in Purged(data)
  {
    WhereMembers(data, NotTest());
  }

  /** Purging twice removes nothing the second time. */
  lemma PurgeIdempotent(data: seq<Record>)
    ensures Purged(Purged(data)) == Purged(data)
    ensures |Purged(data)| - |Purged(Purged(data))| == 0
  {
    WhereIdempotent(data, NotTest());
  }

  /** Lines 171-178: the list becomes its non-test records, and the number
      reported is how many were removed. */
  method PurgeTestTransactions(st: State) returns (removed: int)
    modifies st
    ensures st.etfData == Purged(old(st.etfData))
    ensures removed == |old(st.etfData)| - |st.etfData|
    ensures st.etfDetails == old(st.etfDetails)
  {
    var originalLen := |st.etfData|;
    st.etfData := Where(st.etfData, NotTest());
    var newLen := |st.etfData|;
    removed := originalLen - newLen;
  }

  // ---------------------------------------------------------------------
  // Reset

  const ConfirmationPhrase: string := "CONFERMA RESET"

  /** Lines 192-195 with the button's `disabled` flag as a parameter: a
      pressed, enabled button with the confirmation phrase typed empties the
      transactions and the holdings details. */
  method ResetData(st: State, disabled: bool, clicked: bool, confirmation: string)
    modifies st
    ensures !disabled && clicked && confirmation == ConfirmationPhrase ==> st.etfData == [] && st.etfDetails == []
    ensures !(!disabled && clicked && confirmation == ConfirmationPhrase) ==>
      st.etfData == old(st.etfData) && st.etfDetails == old(st.etfDetails)
  {
    var pressed := !disabled && clicked;
    if pressed {
      if confirmation == ConfirmationPhrase {
        st.etfData := [];
        st.etfDetails := [];
      }
    }
  }

  /** Line 192: the page renders the reset button disabled, so a disabled
      button never reports a click and the reset changes nothing. */
  method ResetPage(st: State, clicked: bool, confirmation: string)
    modifies st
    ensures st.etfData == old(st.etfData) && st.etfDetails == old(st.etfDetails)
  {
    ResetData(st, true, clicked, confirmation);
  }
}

/** The part of Streamlit's session state the pages share: the list of
    transactions and the holdings details last uploaded. */
module Session {
  import opened Values

  class State {
    /** `st.session_state.etf_data`. */
    var etfData: seq<Record>
    /** `st.session_state.etf_details`, as its list of row records. */
    var etfDetails: seq<Record>

    constructor(data: seq<Record>, details: seq<Record>)
      ensures etfData == data && etfDetails == details
    {
      etfData := data;
      etfDetails := details;
    }
  }
}

/** The status line written by updateStatus and by processPDF. */
module StatusLine {
  import opened Units
  import opened Extraction

  /** `Analysing` is the "analysing" text, `Prompt` the "please load a PDF" text, `Showing`
      the "total N, showing count" text and `Error` the error text with its message. */
  datatype Status = Analysing | Prompt | Showing(total: nat, shown: nat) | Error(message: seq<Unit>)

  /** `updateStatus(count)`: the prompt whenever `masterData` is empty, whatever the count;
      otherwise the total and the shown count. */
  function StatusFor(masterData: seq<Run>, count: nat): (st: Status)
    ensures st == Prompt <==> masterData == []
    ensures masterData != [] ==> st.Showing? && st.total == |masterData| && st.shown == count
  {
    if |masterData| == 0 then Prompt else Showing(|masterData|, count)
  }
}

/**
 * The page's state and the operations that change it: `masterData`, the
 * filter box's value, the result area and the status line, with processPDF,
 * renderTable, updateStatus and the filter box's `oninput` handler.
 *
 * The PDF library is replaced by a `Document` value saying what each of its
 * calls yields: the joined text of each page, or the error it throws.
 */
module Session {
  import opened Options
  import opened Units
  import opened Extraction
  import opened Ranking
  import opened Filtering
  import opened StatusLine

  /** What `getPage(i)` and `getTextContent()` yield for one page: its text, or an error. */
  datatype PageFetch = Loaded(text: seq<Unit>) | LoadFailed(message: seq<Unit>)

  /** What `file.arrayBuffer()` and `getDocument(...)` yield: an error, or the pages `1..numPages`. */
  datatype Document = OpenFailed(message: seq<Unit>) | Opened(pages: seq<PageFetch>)

  /** How many pages, from the first, load without error. */
  function LoadedPrefix(pages: seq<PageFetch>): (n: nat)
    ensures n <= |pages|
    ensures forall k :: 0 <= k < n ==> pages[k].Loaded?
    ensures n < |pages| ==> pages[n].LoadFailed?
  {
    if pages == [] || pages[0].LoadFailed? then 0 else 1 + LoadedPrefix(pages[1..])
  }

  /** The records of the loaded pages, page after page, before any sorting. */
  function DocumentRuns(pages: seq<PageFetch>): (rs: seq<Run>)
    ensures (forall k :: 0 <= k < |pages| ==> pages[k].LoadFailed?) ==> rs == []
  {
    if pages == [] then []
    else
      var last := pages[|pages| - 1];
      DocumentRuns(pages[..|pages| - 1]) + (if last.Loaded? then PageRuns(last.text) else [])
  }

  /** Records are only ever appended: those of the first `i` pages come first, in the same order. */
  lemma {:induction false} DocumentRunsPrefix(pages: seq<PageFetch>, i: nat)
    requires i <= |pages|
    ensures DocumentRuns(pages[..i]) <= DocumentRuns(pages)
    decreases |pages|
  {
    if i < |pages| {
      var init := pages[..|pages| - 1];
      DocumentRunsPrefix(init, i);
      assert init[..i] == pages[..i];
    } else {
      assert pages[..i] == pages;
    }
  }

  /** Every record of a document is well formed and no record is made of a line terminator. */
  lemma {:induction false} DocumentRunsWellFormed(pages: seq<PageFetch>)
    ensures forall r :: r in DocumentRuns(pages) ==> WellFormed(r) && !IsLineTerminator(r.ch)
  {
    if pages != [] {
      DocumentRunsWellFormed(pages[..|pages| - 1]);
      var last := pages[|pages| - 1];
      if last.Loaded? {
        PageRunsWellFormed(last.text);
      }
    }
  }

  /** The ranked records of the loaded pages: well-formed records, lengths non-increasing,
      a permutation of the records in discovery order, and records of equal length in
      discovery order. `StableSortIsUnique` shows no other sequence has these properties. */
  lemma RankedDataset(pages: seq<PageFetch>, n: nat)
    ensures forall r :: r in SortByLength(DocumentRuns(pages)) ==> WellFormed(r)
    ensures NonIncreasing(SortByLength(DocumentRuns(pages)))
    ensures multiset(SortByLength(DocumentRuns(pages))) == multiset(DocumentRuns(pages))
    ensures OfLength(SortByLength(DocumentRuns(pages)), n) == OfLength(DocumentRuns(pages), n)
  {
    DocumentRunsWellFormed(pages);
    SortIsNonIncreasing(DocumentRuns(pages));
    SortIsStable(DocumentRuns(pages), n);
    forall r | r in SortByLength(DocumentRuns(pages)) ensures WellFormed(r) {
      assert r in multiset(DocumentRuns(pages));
    }
  }

  /** One turn of the exec loop: pushing the record of the first match from `from` onto
      `acc` leaves the matches from its end still to be pushed. */
  lemma PushStep(s: seq<Unit>, from: nat, before: seq<Run>, acc: seq<Run>, text: seq<Unit>)
    requires from <= |s| && NextMatch(s, from).Some?
    requires text == s[NextMatch(s, from).value.start..NextMatch(s, from).value.end]
    requires before + PageRuns(s) == acc + Records(s, Spans(s, from))
    ensures |text| >= 2
    ensures before + PageRuns(s) == acc + [Run(text[0], text, |text|)] + Records(s, Spans(s, NextMatch(s, from).value.end))
  {
    var sp := NextMatch(s, from).value;
    var rest := Records(s, Spans(s, sp.end));
    ScanStep(s, from);
    assert RunOf(s, sp) == Run(text[0], text, |text|);
    assert acc + ([RunOf(s, sp)] + rest) == acc + [RunOf(s, sp)] + rest;
  }

  /** The records still to be pushed from `from` start with the first match's record. */
  lemma ScanStep(s: seq<Unit>, from: nat)
    requires from <= |s| && NextMatch(s, from).Some?
    ensures var sp := NextMatch(s, from).value;
      Records(s, Spans(s, from)) == [RunOf(s, sp)] + Records(s, Spans(s, sp.end))
  {
    var sp := NextMatch(s, from).value;
    assert Spans(s, from) == [sp] + Spans(s, sp.end);
    assert Spans(s, from)[1..] == Spans(s, sp.end);
  }

  /** Loading one more page appends its records. */
  lemma DocumentRunsStep(pages: seq<PageFetch>, i: nat, start: seq<Run>, before: seq<Run>, after: seq<Run>)
    requires i <= LoadedPrefix(pages) && i < |pages| && pages[i].Loaded?
    requires before == start + DocumentRuns(pages[..i])
    requires after == before + PageRuns(pages[i].text)
    ensures i + 1 <= LoadedPrefix(pages)
    ensures after == start + DocumentRuns(pages[..i + 1])
  {
    assert i != LoadedPrefix(pages);
    DocumentRunsSnoc(pages, i);
  }

  /** The records of the first `i + 1` pages are those of the first `i`, then page `i`'s. */
  lemma DocumentRunsSnoc(pages: seq<PageFetch>, i: nat)
    requires i < |pages| && pages[i].Loaded?
    ensures DocumentRuns(pages[..i + 1]) == DocumentRuns(pages[..i]) + PageRuns(pages[i].text)
  {
    var upto := pages[..i + 1];
    assert upto[..|upto| - 1] == pages[..i] && upto[|upto| - 1] == pages[i];
  }

  class Analyzer {
    /** The records found in the current document. */
    var masterData: seq<Run>
    /** `filterInput.value`, the raw text of the filter box. */
    var filterValue: seq<Unit>
    /** What the result area shows. */
    var view: View
    /** What the status line shows. */
    var status: Status

    /** The page as loaded: no data, an empty filter box and result area. */
    constructor ()
      ensures masterData == [] && filterValue == [] && view == Blank && status == Prompt
    {
      masterData := [];
      filterValue := [];
      view := Blank;
      status := Prompt;
    }

    /** `updateStatus(count)`, where `None` is a call without argument (`count = masterData.length`). */
    method UpdateStatus(count: Option<nat>)
      modifies this`status
      ensures status == StatusFor(masterData, count.GetOr(|masterData|))
    {
      status := StatusFor(masterData, count.GetOr(|masterData|));
    }

    /** `renderTable(data)`: the filtered table or the "no matches" message, then the status
        with the number of rows shown (0 for no matches). */
    method RenderTable(data: seq<Run>)
      modifies this`view, this`status
      ensures view == RenderedView(data, filterValue)
      ensures status == StatusFor(masterData, |Filtered(data, filterValue)|)
      ensures view == NoMatches ==> status == StatusFor(masterData, 0)
    {
      var filtered := Filtered(data, filterValue);
      ghost var rendered := RenderedView(data, filterValue);
      if |filtered| == 0 {
        assert rendered == NoMatches;
        view := NoMatches;
        UpdateStatus(Some(0));
        return;
      }
      assert rendered == Rows(filtered);
      view := Rows(filtered);
      UpdateStatus(Some(|filtered|));
    }

    /** The filter box's `oninput` handler: `renderTable(masterData)` with the new value. */
    method OnFilterInput(value: seq<Unit>)
      modifies this`filterValue, this`view, this`status
      ensures filterValue == value && masterData == old(masterData)
      ensures view == RenderedView(masterData, value)
      ensures status == StatusFor(masterData, |Filtered(masterData, value)|)
    {
      filterValue := value;
      RenderTable(masterData);
    }

    /** The `while ((match = regex.exec(pageText)) !== null)` loop of processPDF: each match of
        `/(.)\1+/g`, from a fresh regex with `lastIndex` 0, is pushed onto `masterData`. */
    method PushPageRuns(pageText: seq<Unit>)
      modifies this`masterData
      ensures masterData == old(masterData) + PageRuns(pageText)
    {
      var lastIndex := 0;
      while true
        invariant lastIndex <= |pageText|
        invariant old(masterData) + PageRuns(pageText) == masterData + Records(pageText, Spans(pageText, lastIndex))
        decreases |pageText| - lastIndex
      {
        var found := Exec(pageText, lastIndex);
        if found.None? {
          break;
        }
        var sp := found.value;
        var text := pageText[sp.start..sp.end];
        PushStep(pageText, lastIndex, old(masterData), masterData, text);
        masterData := masterData + [Run(text[0], text, |text|)];
        lastIndex := sp.end;
      }
    }

    /** `processPDF(file)`. `masterData` starts empty; each page's matches are pushed in page
        order; on success the data is sorted, rendered through the filter, and the status is
        set by `updateStatus()` to show the whole total. An error thrown by the document or a
        page only sets the error status: the result area stays cleared, and `masterData`
        keeps the unsorted records of the pages before the failing one. */
    method ProcessPdf(doc: Document)
      modifies this`masterData, this`view, this`status
      ensures filterValue == old(filterValue)
      ensures doc.OpenFailed? ==> masterData == [] && view == Blank && status == Error(doc.message)
      ensures doc.Opened? && LoadedPrefix(doc.pages) < |doc.pages| ==>
        && masterData == DocumentRuns(doc.pages[..LoadedPrefix(doc.pages)])
        && view == Blank
        && status == Error(doc.pages[LoadedPrefix(doc.pages)].message)
      ensures doc.Opened? && LoadedPrefix(doc.pages) == |doc.pages| ==>
        && masterData == SortByLength(DocumentRuns(doc.pages))
        && view == RenderedView(masterData, filterValue)
        && status == StatusFor(masterData, |masterData|)
    {
      status := Analysing;
      view := Blank;
      masterData := [];
      match doc
      case OpenFailed(message) =>
        status := Error(message);
      case Opened(pages) =>
        ghost var found := DocumentRuns(pages[..LoadedPrefix(pages)]);
        var thrown := PushDocumentRuns(pages);
        assert masterData == found by {
          assert [] + found == found;
        }
        if thrown.Some? {
          status := Error(thrown.value);
          return;
        }
        assert masterData == DocumentRuns(pages) by {
          assert pages[..LoadedPrefix(pages)] == pages;
        }
        Publish();
    }

    /** The end of a successful processPDF: `masterData.sort(...)`, `renderTable(masterData)`,
        then `updateStatus()`, which overwrites the count renderTable showed with the total. */
    method Publish()
      modifies this`masterData, this`view, this`status
      ensures masterData == SortByLength(old(masterData))
      ensures view == RenderedView(masterData, filterValue)
      ensures status == StatusFor(masterData, |masterData|)
    {
      masterData := SortByLength(masterData);
      RenderTable(masterData);
      UpdateStatus(None);
    }

    /** The `for (let i = 1; i <= pdf.numPages; i++)` loop of processPDF: each page's records are
        pushed in page order, until a page throws; the error it throws is returned. */
    method PushDocumentRuns(pages: seq<PageFetch>) returns (thrown: Option<seq<Unit>>)
      modifies this`masterData
      ensures thrown.None? <==> LoadedPrefix(pages) == |pages|
      ensures thrown.Some? ==> thrown.value == pages[LoadedPrefix(pages)].message
      ensures masterData == old(masterData) + DocumentRuns(pages[..LoadedPrefix(pages)])
    {
      var i := 0;
      while i < |pages|
        invariant i <= LoadedPrefix(pages)
        invariant masterData == old(masterData) + DocumentRuns(pages[..i])
      {
        if pages[i].LoadFailed? {
          assert i == LoadedPrefix(pages);
          return Some(pages[i].message);
        }
        ghost var before := masterData;
        PushPageRuns(pages[i].text);
        DocumentRunsStep(pages, i, old(masterData), before, masterData);
        i := i + 1;
      }
      assert i == LoadedPrefix(pages) && pages[..i] == pages;
      return None;
    }
  }
}

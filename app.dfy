/**
 * The history bookkeeping of the App component (App.tsx): the four pieces
 * of React state the capture, reset, clear and delete handlers update, as
 * the fields of one object. The clock, the confirmation dialog and the
 * image analysis are parameters of the handlers.
 */
module App {
  import opened Wrappers
  import opened JsonValues
  import opened Types
  import opened GeminiService

  // ---------------------------------------------------------------------
  // The list operations the handlers apply
  // ---------------------------------------------------------------------

  /** How many scans the history keeps. */
  const HistoryLimit: nat := 20

  function Min(a: int, b: int): int
  {
    if a <= b then a else b
  }

  /**
   * `[newScan, ...prev].slice(0, 20)`: the new scan first, then the most
   * recent of the previous scans, at most twenty in all.
   */
  function AddScan(prev: seq<ScanResult>, scan: ScanResult): (r: seq<ScanResult>)
    ensures |r| == Min(|prev| + 1, HistoryLimit)
    ensures r[0] == scan
    ensures r[1..] == prev[..Min(|prev|, HistoryLimit - 1)]
  {
    var all := [scan] + prev;
    assert all[1..] == prev;
    all[..Min(|all|, HistoryLimit)]
  }

  function Reversed(s: seq<ScanResult>): (r: seq<ScanResult>)
    ensures |r| == |s|
    ensures forall k :: 0 <= k < |s| ==> r[k] == s[|s| - 1 - k]
    decreases |s|
  {
    if s == [] then [] else [s[|s| - 1]] + Reversed(s[..|s| - 1])
  }

  /** Scans added one after another, `scans[0]` first. */
  function AddScans(prev: seq<ScanResult>, scans: seq<ScanResult>): seq<ScanResult>
    decreases |scans|
  {
    if scans == [] then prev else AddScan(AddScans(prev, scans[..|scans| - 1]), scans[|scans| - 1])
  }

  /** Adding a scan to a history cut at `n` is cutting the longer list at one more. */
  lemma AddScanToCut(all: seq<ScanResult>, x: ScanResult, n: nat)
    requires n <= |all| && (n == |all| || n >= HistoryLimit)
    ensures AddScan(all[..n], x) == ([x] + all)[..Min(n + 1, HistoryLimit)]
  {
    var r := AddScan(all[..n], x);
    var want := ([x] + all)[..Min(n + 1, HistoryLimit)];
    assert r == [r[0]] + r[1..];
    assert want == [want[0]] + want[1..];
    assert want[1..] == all[..Min(n, HistoryLimit - 1)];
  }

  /**
   * However many scans are added, the history holds the twenty most recent
   * scans, newest first: the added scans in reverse order, followed by
   * what remains of the old history. (A stored history longer than twenty
   * is only cut back once a scan is added.)
   */
  lemma {:induction false} AddScansKeepsMostRecent(prev: seq<ScanResult>, scans: seq<ScanResult>)
    requires scans != [] || |prev| <= HistoryLimit
    ensures AddScans(prev, scans) == (Reversed(scans) + prev)[..Min(|scans| + |prev|, HistoryLimit)]
    decreases |scans|
  {
    if scans != [] {
      var front := scans[..|scans| - 1];
      var x := scans[|scans| - 1];
      var all := Reversed(front) + prev;
      var n: nat;
      if front != [] || |prev| <= HistoryLimit {
        AddScansKeepsMostRecent(prev, front);
        n := Min(|all|, HistoryLimit);
      } else {
        assert all == all[..|all|];
        n := |all|;
      }
      assert AddScans(prev, front) == all[..n];
      AddScanToCut(all, x, n);
      assert Reversed(scans) + prev == [x] + all;
    }
  }

  /** `prev.filter(scan => scan.id !== id)`: the scans whose id differs from `id`, in their order. */
  function WithoutId(history: seq<ScanResult>, id: string): (r: seq<ScanResult>)
    ensures |r| <= |history|
    ensures forall s :: s in r <==> s in history && s.id != id
    decreases |history|
  {
    if history == [] then []
    else
      var rest := WithoutId(history[..|history| - 1], id);
      var last := history[|history| - 1];
      assert history == history[..|history| - 1] + [last];
      if last.id != id then rest + [last] else rest
  }

  /** Deleting works piece by piece, so the scans that stay keep their relative order. */
  lemma {:induction false} WithoutIdAppend(a: seq<ScanResult>, b: seq<ScanResult>, id: string)
    ensures WithoutId(a + b, id) == WithoutId(a, id) + WithoutId(b, id)
    decreases |b|
  {
    if b != [] {
      var front := b[..|b| - 1];
      WithoutIdAppend(a, front, id);
      var last := b[|b| - 1];
      assert (a + b)[..|a + b| - 1] == a + front;
      assert (a + b)[|a + b| - 1] == last;
      var tail := if last.id != id then [last] else [];
      assert WithoutId(a + b, id) == WithoutId(a + front, id) + tail;
      assert WithoutId(b, id) == WithoutId(front, id) + tail;
      assert WithoutId(a, id) + WithoutId(front, id) + tail == WithoutId(a, id) + (WithoutId(front, id) + tail);
    } else {
      assert a + b == a;
    }
  }

  /** A history with no scan of that id is left as it is. */
  lemma {:induction false} WithoutAbsentId(history: seq<ScanResult>, id: string)
    requires forall k :: 0 <= k < |history| ==> history[k].id != id
    ensures WithoutId(history, id) == history
    decreases |history|
  {
    if history != [] {
      WithoutAbsentId(history[..|history| - 1], id);
    }
  }

  /** The number of scans with id `id`. */
  function IdCount(history: seq<ScanResult>, id: string): nat
    decreases |history|
  {
    if history == [] then 0
    else IdCount(history[..|history| - 1], id) + (if history[|history| - 1].id == id then 1 else 0)
  }

  /** Exactly the scans with that id go: every one of them, and nothing else. */
  lemma {:induction false} WithoutIdRemovesEveryMatch(history: seq<ScanResult>, id: string)
    ensures |WithoutId(history, id)| == |history| - IdCount(history, id)
    decreases |history|
  {
    if history != [] {
      WithoutIdRemovesEveryMatch(history[..|history| - 1], id);
    }
  }

  /** `err.message || "Something went wrong."` */
  const GenericError: string := "Something went wrong."

  function ErrorText(message: string): (t: string)
    ensures t != ""
    ensures message != "" ==> t == message
    ensures message == "" ==> t == GenericError
  {
    if message != "" then message else GenericError
  }

  // ---------------------------------------------------------------------
  // Date.now().toString(): the id of a scan
  // ---------------------------------------------------------------------

  function DigitChar(d: nat): (c: char)
    requires d < 10
    ensures '0' <= c <= '9'
  {
    "0123456789"[d]
  }

  predicate IsDigit(c: char)
  {
    '0' <= c <= '9'
  }

  /** The decimal digits of a non-negative integer, without leading zeros. */
  function DecimalString(n: nat): (s: string)
    ensures |s| >= 1
    ensures forall k :: 0 <= k < |s| ==> IsDigit(s[k])
    ensures s[0] == '0' ==> n == 0
    decreases n
  {
    if n < 10 then [DigitChar(n)] else DecimalString(n / 10) + [DigitChar(n % 10)]
  }

  /** The value of a string of decimal digits. */
  function DecimalValue(s: string): nat
    requires forall k :: 0 <= k < |s| ==> IsDigit(s[k])
    decreases |s|
  {
    if s == [] then 0
    else
      assert IsDigit(s[|s| - 1]);
      DecimalValue(s[..|s| - 1]) * 10 + (s[|s| - 1] as int - '0' as int)
  }

  /** Reading the id back gives the clock value it was made from. */
  lemma {:induction false} DecimalRoundTrip(n: nat)
    ensures DecimalValue(DecimalString(n)) == n
    decreases n
  {
    var s := DecimalString(n);
    if n < 10 {
      assert s[..|s| - 1] == [];
    } else {
      DecimalRoundTrip(n / 10);
      assert s[..|s| - 1] == DecimalString(n / 10);
    }
  }

  /** So scans made at different clock readings get different ids. */
  lemma DistinctClocksDistinctIds(m: nat, n: nat)
    requires m != n
    ensures DecimalString(m) != DecimalString(n)
  {
    DecimalRoundTrip(m);
    DecimalRoundTrip(n);
  }

  // ---------------------------------------------------------------------
  // The component state and its handlers (lines 41-78)
  // ---------------------------------------------------------------------

  class AppState {
    var history: seq<ScanResult>
    var error: Option<string>
    var isAnalyzing: bool
    /** The last successful analysis, `Omit<ScanResult, 'id' | 'timestamp'>`: just the items. */
    var currentAnalysis: Option<seq<WasteItem>>

    /** The state on mount (before any saved history is loaded, which is not part of this model). */
    constructor ()
      ensures history == [] && error == None && !isAnalyzing && currentAnalysis == None
    {
      history := [];
      error := None;
      isAnalyzing := false;
      currentAnalysis := None;
    }

    /** Lines 42-43: a capture starts by marking the analysis as running and clearing any error. */
    method BeginCapture()
      modifies this
      ensures isAnalyzing && error == None
      ensures history == old(history) && currentAnalysis == old(currentAnalysis)
    {
      isAnalyzing := true;
      error := None;
    }

    /**
     * Lines 45-60, once the analysis has settled: on success the result
     * becomes the current analysis and a new scan is put in front of the
     * history; on failure the message (or a generic one) becomes the error
     * and nothing else changes. Either way the analysis is over.
     * `idClock` and `stampClock` are the two readings of Date.now().
     */
    method FinishCapture(result: Result<seq<WasteItem>, string>, idClock: nat, stampClock: nat)
      modifies this
      ensures !isAnalyzing
      ensures result.Ok? ==> currentAnalysis == Some(result.value) && error == old(error)
      ensures result.Ok? ==> history == AddScan(old(history), ScanResult(DecimalString(idClock), stampClock, result.value))
      ensures result.Err? ==> error == Some(ErrorText(result.error))
      ensures result.Err? ==> history == old(history) && currentAnalysis == old(currentAnalysis)
    {
      if result.Ok? {
        currentAnalysis := Some(result.value);
        var scan := ScanResult(DecimalString(idClock), stampClock, result.value);
        history := AddScan(history, scan);
      } else {
        error := Some(ErrorText(result.error));
      }
      isAnalyzing := false;
    }

    /**
     * The whole capture handler. A successful analysis yields a history of
     * at most twenty scans led by the new one, with no error; a failed one
     * leaves history and current analysis alone and shows the service's
     * failure message.
     */
    method HandleCapture(base64Image: string, generate: Request -> Response, parse: string -> Option<Json>,
                         idClock: nat, stampClock: nat)
      modifies this
      ensures !isAnalyzing
      ensures AnalyzeWasteImage(base64Image, generate, parse).Ok? ==>
        var items := AnalyzeWasteImage(base64Image, generate, parse).value;
        && currentAnalysis == Some(items)
        && error == None
        && history == AddScan(old(history), ScanResult(DecimalString(idClock), stampClock, items))
        && |history| <= HistoryLimit
      ensures AnalyzeWasteImage(base64Image, generate, parse).Err? ==>
        && error == Some(FailureMessage)
        && history == old(history)
        && currentAnalysis == old(currentAnalysis)
    {
      BeginCapture();
      var result := AnalyzeWasteImage(base64Image, generate, parse);
      FinishCapture(result, idClock, stampClock);
    }

    /** Lines 63-66: back to the camera; the history stays. */
    method HandleReset()
      modifies this
      ensures currentAnalysis == None && error == None
      ensures history == old(history) && isAnalyzing == old(isAnalyzing)
    {
      currentAnalysis := None;
      error := None;
    }

    /** Lines 68-71: with the user's confirmation the history is emptied, otherwise nothing happens. */
    method ClearHistory(confirmed: bool)
      modifies this
      ensures history == (if confirmed then [] else old(history))
      ensures error == old(error) && isAnalyzing == old(isAnalyzing) && currentAnalysis == old(currentAnalysis)
    {
      if confirmed {
        history := [];
      }
    }

    /** Lines 74-77: with the user's confirmation every scan with that id is removed, otherwise nothing happens. */
    method DeleteScan(id: string, confirmed: bool)
      modifies this
      ensures history == (if confirmed then WithoutId(old(history), id) else old(history))
      ensures error == old(error) && isAnalyzing == old(isAnalyzing) && currentAnalysis == old(currentAnalysis)
    {
      if confirmed {
        history := WithoutId(history, id);
      }
    }
  }
}

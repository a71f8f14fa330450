/** `src/lib/telegram-webapp.ts`: the Mini App's init data and start parameter, read from
    the `Telegram.WebApp` object when it has them and from the page URL otherwise, and
    the loop that polls for the init data until it appears, the signal aborts, or the
    time runs out. The browser is an input: a `Window` value per reading, a clock and an
    abort flag per poll. */
module Telegram {
  import opened Common
  import opened Text
  import opened Uri

  /** What the getters read: `Telegram.WebApp.initData`, its
      `initDataUnsafe.start_param` (None where any link of the chain is missing), and
      `location.hash` and `location.search`. */
  datatype Window = Window(
    initData: Option<string>,
    startParam: Option<string>,
    hash: string,
    search: string)

  const InitDataParam := "tgWebAppData"
  const StartParamName := "tgWebAppStartParam"
  const StartAppName := "startapp"

  /** `hash.replace(/^#/, '')` */
  function StripHash(hash: string): string {
    if hash != [] && hash[0] == '#' then hash[1..] else hash
  }

  /** `getTelegramInitDataFromLocation`: a non-empty `tgWebAppData` from the hash, else
      from the query string; None is `undefined`. */
  function InitDataFromLocation(w: Window): (r: Option<string>)
    ensures r.Some? ==> r.value != ""
  {
    var hash := StripHash(w.hash);
    var fromHash := if hash != "" then QueryGet(hash, InitDataParam) else None;
    if fromHash.Some? && fromHash.value != "" then fromHash
    else
      var fromSearch := QueryGet(w.search, InitDataParam);
      if fromSearch.Some? && fromSearch.value != "" then fromSearch else None
  }

  /** `getTelegramInitData`: `initData ?? fromLocation ?? ''`. */
  function InitData(w: Window): string {
    if w.initData.Some? then w.initData.value else InitDataFromLocation(w).GetOr("")
  }

  /** `getTelegramStartParam`: the first truthy of the three, else the empty string. */
  function StartParam(w: Window): string {
    var fromApp := w.startParam.GetOr("");
    var fromParam := QueryGet(w.search, StartParamName).GetOr("");
    var fromStartApp := QueryGet(w.search, StartAppName).GetOr("");
    if fromApp != "" then fromApp else if fromParam != "" then fromParam else fromStartApp
  }

  // ---------------------------------------------------------------- precedence

  /** The app object's init data is used whenever it is defined, even when it is empty
      and the URL carries init data of its own. */
  lemma AppDataWins(w: Window, app: string, data: string)
    requires w.initData == Some(app) && w.hash == "#" + InitDataParam + "=" + FormEncode(data)
    requires data != "" && IsAscii(data)
    ensures InitDataFromLocation(w) == Some(data)
    ensures InitData(w) == app
  {
    HashReadBack(w.hash, data);
  }

  /** Init data written into the hash as `#tgWebAppData=…` is read back as it was
      written, for ASCII data and no app object. */
  lemma InitDataFromHash(w: Window, data: string)
    requires w.initData.None? && w.hash == "#" + InitDataParam + "=" + FormEncode(data)
    requires data != "" && IsAscii(data)
    ensures InitData(w) == data
  {
    HashReadBack(w.hash, data);
  }

  /** When both the hash and the query string carry init data, the hash's is used. */
  lemma HashOverSearch(w: Window, fromHash: string, fromSearch: string)
    requires w.initData.None?
    requires w.hash == "#" + InitDataParam + "=" + FormEncode(fromHash)
    requires w.search == "?" + InitDataParam + "=" + FormEncode(fromSearch)
    requires fromHash != "" && IsAscii(fromHash) && IsAscii(fromSearch)
    ensures InitData(w) == fromHash
  {
    HashReadBack(w.hash, fromHash);
  }

  /** An empty `tgWebAppData` in the hash falls through to the query string, whose
      leading '?' is dropped. */
  lemma EmptyHashFallsThrough(w: Window, data: string)
    requires w.initData.None?
    requires w.hash == "#" + InitDataParam + "=" + FormEncode("")
    requires w.search == "?" + InitDataParam + "=" + FormEncode(data)
    requires data != "" && IsAscii(data)
    ensures InitData(w) == data
  {
    HashReadBack(w.hash, "");
    SearchReadBack(w.search, InitDataParam, data);
  }

  /** With no app object and nothing in the URL the init data is the empty string. */
  lemma NoInitData(w: Window)
    requires w.initData.None? && w.hash == "" && w.search == ""
    ensures InitData(w) == ""
  {
    EmptyQuery();
  }

  /** The hash `#tgWebAppData=…`, stripped of its '#', reads back the data. */
  lemma HashReadBack(hash: string, data: string)
    requires hash == "#" + InitDataParam + "=" + FormEncode(data) && IsAscii(data)
    ensures StripHash(hash) == InitDataParam + "=" + FormEncode(data)
    ensures QueryGet(StripHash(hash), InitDataParam) == Some(data)
  {
    assert StripHash(hash) == InitDataParam + "=" + FormEncode(data);
    InitDataParamSafe();
    QueryReadBack(InitDataParam, data);
  }

  /** The query string `?name=…` holds exactly that one parameter. */
  lemma SearchReadBack(search: string, name: string, value: string)
    requires name != [] && forall i :: 0 <= i < |name| ==> IsFormSafeChar(name[i])
    requires search == "?" + name + "=" + FormEncode(value) && IsAscii(value)
    ensures ParseQuery(search) == [Param(name, value)]
  {
    assert search[1..] == name + "=" + FormEncode(value);
    QuerySingle(name, value);
  }

  /** The empty query string holds no parameter. */
  lemma EmptyQuery()
    ensures ParseQuery("") == []
  {
    assert Split("", '&') == [""];
    assert ParsePieces([""]) == [] + ParsePieces([]);
  }

  lemma InitDataParamSafe()
    ensures forall i :: 0 <= i < |InitDataParam| ==> IsFormSafeChar(InitDataParam[i])
  {
    var n := InitDataParam;
    assert IsFormSafeChar(n[0]) && IsFormSafeChar(n[1]) && IsFormSafeChar(n[2]);
    assert IsFormSafeChar(n[3]) && IsFormSafeChar(n[4]) && IsFormSafeChar(n[5]);
    assert IsFormSafeChar(n[6]) && IsFormSafeChar(n[7]) && IsFormSafeChar(n[8]);
    assert IsFormSafeChar(n[9]) && IsFormSafeChar(n[10]) && IsFormSafeChar(n[11]);
  }

  lemma StartParamNamesSafe()
    ensures forall i :: 0 <= i < |StartParamName| ==> IsFormSafeChar(StartParamName[i])
    ensures forall i :: 0 <= i < |StartAppName| ==> IsFormSafeChar(StartAppName[i])
  {
    var n := StartParamName;
    assert IsFormSafeChar(n[0]) && IsFormSafeChar(n[1]) && IsFormSafeChar(n[2]);
    assert IsFormSafeChar(n[3]) && IsFormSafeChar(n[4]) && IsFormSafeChar(n[5]);
    assert IsFormSafeChar(n[6]) && IsFormSafeChar(n[7]) && IsFormSafeChar(n[8]);
    assert IsFormSafeChar(n[9]) && IsFormSafeChar(n[10]) && IsFormSafeChar(n[11]);
    assert IsFormSafeChar(n[12]) && IsFormSafeChar(n[13]) && IsFormSafeChar(n[14]);
    assert IsFormSafeChar(n[15]) && IsFormSafeChar(n[16]) && IsFormSafeChar(n[17]);
    var m := StartAppName;
    assert IsFormSafeChar(m[0]) && IsFormSafeChar(m[1]) && IsFormSafeChar(m[2]);
    assert IsFormSafeChar(m[3]) && IsFormSafeChar(m[4]) && IsFormSafeChar(m[5]);
    assert IsFormSafeChar(m[6]) && IsFormSafeChar(m[7]);
  }

  /** The app object's non-empty start parameter wins over the query string's. */
  lemma AppStartParamWins(w: Window, fromApp: string, fromQuery: string)
    requires w.startParam == Some(fromApp) && fromApp != ""
    requires w.search == "?" + StartParamName + "=" + FormEncode(fromQuery) && IsAscii(fromQuery)
    ensures StartParam(w) == fromApp
  {
  }

  /** Without one from the app object, `?tgWebAppStartParam=…` is read back as written. */
  lemma StartParamFromQuery(w: Window, p: string)
    requires w.startParam.GetOr("") == ""
    requires w.search == "?" + StartParamName + "=" + FormEncode(p) && IsAscii(p) && p != ""
    ensures StartParam(w) == p
  {
    StartParamNamesSafe();
    SearchReadBack(w.search, StartParamName, p);
  }

  /** Without the first two, `?startapp=…` is read back as written, even when empty. */
  lemma StartAppFallback(w: Window, p: string)
    requires w.startParam.GetOr("") == ""
    requires w.search == "?" + StartAppName + "=" + FormEncode(p) && IsAscii(p)
    ensures StartParam(w) == p
  {
    StartParamNamesSafe();
    SearchReadBack(w.search, StartAppName, p);
    assert StartAppName != StartParamName;
  }

  /** With none of the three the start parameter is the empty string. */
  lemma NoStartParam(w: Window)
    requires w.startParam.None? && w.search == ""
    ensures StartParam(w) == ""
  {
    EmptyQuery();
  }

  // ---------------------------------------------------------------- the polling loop

  const DefaultTimeoutMs := 10000
  const DefaultIntervalMs := 100
  const NotAvailableMessage :=
    "Telegram initData is not available. Open this page from inside Telegram (Mini App)."

  /** How a wait ends: the data, the `AbortError`, or the 'not available' error. */
  datatype WaitResult = Ready(initData: string) | Aborted | NotAvailable

  /** The message of what a failed wait throws: the `AbortError` says "Aborted". */
  function WaitFailure(r: WaitResult): string
    requires !r.Ready?
  {
    if r.Aborted? then "Aborted" else NotAvailableMessage
  }

  /** The clock readings: `clock(0)` is `start`, `clock(k + 1)` the reading of the loop
      test before poll `k`. Time never goes back, and each sleep lasts at least the
      interval, and at least 1 ms. */
  ghost predicate ClockAdvances(clock: nat -> int, intervalMs: int) {
    forall k: nat ::
      clock(k) + (if k == 0 then 0 else if intervalMs < 1 then 1 else intervalMs) <= clock(k + 1)
  }

  /** The outcome of the loop from poll `k` on: the time test, then the abort check,
      then the init data `dataAt(k)` read at that poll. */
  function WaitFrom(clock: nat -> int, aborted: nat -> bool, dataAt: nat -> string,
                    timeoutMs: int, intervalMs: int, k: nat): WaitResult
    requires ClockAdvances(clock, intervalMs)
    decreases clock(0) + timeoutMs - clock(k + 1)
  {
    if clock(k + 1) - clock(0) > timeoutMs then NotAvailable
    else if aborted(k) then Aborted
    else if dataAt(k) != "" then Ready(dataAt(k))
    else
      assert clock(k + 1) < clock(k + 2);
      WaitFrom(clock, aborted, dataAt, timeoutMs, intervalMs, k + 1)
  }

  /** `waitForTelegramInitData`; a missing option is None and takes its default. Poll `k`
      reads the init data of the window `windowAt(k)`. */
  method WaitForInitData(clock: nat -> int, aborted: nat -> bool, windowAt: nat -> Window,
                         timeout: Option<int>, interval: Option<int>) returns (r: WaitResult)
    requires ClockAdvances(clock, interval.GetOr(DefaultIntervalMs))
    ensures r == WaitFrom(clock, aborted, (k: nat) => InitData(windowAt(k)), timeout.GetOr(DefaultTimeoutMs),
                          interval.GetOr(DefaultIntervalMs), 0)
  {
    var timeoutMs := timeout.GetOr(DefaultTimeoutMs);
    var intervalMs := interval.GetOr(DefaultIntervalMs);
    ghost var dataAt := (k: nat) => InitData(windowAt(k));
    var start := clock(0);
    var k: nat := 0;
    while clock(k + 1) - start <= timeoutMs
      invariant WaitFrom(clock, aborted, dataAt, timeoutMs, intervalMs, k) ==
                WaitFrom(clock, aborted, dataAt, timeoutMs, intervalMs, 0)
      decreases start + timeoutMs - clock(k + 1)
    {
      if aborted(k) {
        return Aborted;
      }
      var initData := InitData(windowAt(k));
      if initData != "" {
        return Ready(initData);
      }
      assert clock(k + 1) < clock(k + 2);
      k := k + 1;
    }
    return NotAvailable;
  }

  /** A ready result is the first non-empty init data, seen within the time limit at a
      poll before which nothing was aborted and every poll found nothing. */
  lemma {:induction false} ReadyIsFirst(clock: nat -> int, aborted: nat -> bool, dataAt: nat -> string,
                                        timeoutMs: int, intervalMs: int, k: nat) returns (j: nat)
    requires ClockAdvances(clock, intervalMs)
    requires WaitFrom(clock, aborted, dataAt, timeoutMs, intervalMs, k).Ready?
    ensures k <= j && clock(j + 1) - clock(0) <= timeoutMs && !aborted(j)
    ensures WaitFrom(clock, aborted, dataAt, timeoutMs, intervalMs, k) == Ready(dataAt(j))
    ensures dataAt(j) != ""
    ensures forall i :: k <= i < j ==> !aborted(i) && dataAt(i) == ""
    decreases clock(0) + timeoutMs - clock(k + 1)
  {
    if dataAt(k) != "" {
      j := k;
    } else {
      assert clock(k + 1) < clock(k + 2);
      assert WaitFrom(clock, aborted, dataAt, timeoutMs, intervalMs, k) ==
             WaitFrom(clock, aborted, dataAt, timeoutMs, intervalMs, k + 1);
      j := ReadyIsFirst(clock, aborted, dataAt, timeoutMs, intervalMs, k + 1);
    }
  }

  /** An abort seen within the time limit stops the loop before the init data is read. */
  lemma AbortBeforeData(clock: nat -> int, aborted: nat -> bool, dataAt: nat -> string,
                        timeoutMs: int, intervalMs: int, k: nat)
    requires ClockAdvances(clock, intervalMs)
    requires clock(k + 1) - clock(0) <= timeoutMs && aborted(k)
    ensures WaitFrom(clock, aborted, dataAt, timeoutMs, intervalMs, k) == Aborted
  {
  }

  /** When no poll is aborted and none finds init data, the wait ends with the
      'not available' error. */
  lemma {:induction false} NeverReadyTimesOut(clock: nat -> int, aborted: nat -> bool, dataAt: nat -> string,
                                              timeoutMs: int, intervalMs: int, k: nat)
    requires ClockAdvances(clock, intervalMs)
    requires forall i: nat :: !aborted(i) && dataAt(i) == ""
    ensures WaitFrom(clock, aborted, dataAt, timeoutMs, intervalMs, k) == NotAvailable
    decreases clock(0) + timeoutMs - clock(k + 1)
  {
    if clock(k + 1) - clock(0) <= timeoutMs {
      assert !aborted(k) && dataAt(k) == "";
      assert clock(k + 1) < clock(k + 2);
      NeverReadyTimesOut(clock, aborted, dataAt, timeoutMs, intervalMs, k + 1);
    }
  }

  /** The time limit caps the polls: poll `k` happens only if `k` sleeps fit in it. */
  lemma {:induction false} PollsWithinLimit(clock: nat -> int, intervalMs: int, k: nat)
    requires ClockAdvances(clock, intervalMs)
    ensures clock(k + 1) - clock(0) >= k * (if intervalMs < 1 then 1 else intervalMs)
  {
    if k > 0 {
      PollsWithinLimit(clock, intervalMs, k - 1);
      assert clock(k) + (if intervalMs < 1 then 1 else intervalMs) <= clock(k + 1);
    } else {
      assert clock(0) <= clock(1);
    }
  }

  /** A negative time limit fails before the first poll. */
  lemma NegativeTimeout(clock: nat -> int, aborted: nat -> bool, dataAt: nat -> string,
                        timeoutMs: int, intervalMs: int)
    requires ClockAdvances(clock, intervalMs) && timeoutMs < 0
    ensures WaitFrom(clock, aborted, dataAt, timeoutMs, intervalMs, 0) == NotAvailable
  {
    assert clock(0) <= clock(1);
  }
}

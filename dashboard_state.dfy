/** The key-driven navigation state of the telemetry dashboard
    (tools/plugin_top.py): which device file is shown, which page of the
    default view, and which of the two alternative views is active; and the
    page counter of the latency histogram's own input loop. */
module DashboardState {
  import opened Text

  /** Number of device snapshot files (FILES has eight entries). */
  const DeviceFileCount: nat := 8

  /** Key codes as getch() returns them; -1 means no key was pressed. */
  const NoKey: int := -1
  const KeyD: int := 'd' as int
  const KeySpace: int := ' ' as int
  const KeyS: int := 's' as int
  const KeyL: int := 'l' as int
  const KeyR: int := 'r' as int
  const KeyQ: int := 'q' as int
  /** curses.KEY_LEFT, KEY_RIGHT, KEY_NPAGE and KEY_PPAGE in ncurses. */
  const KeyLeft: int := 260
  const KeyRight: int := 261
  const KeyNextPage: int := 338
  const KeyPrevPage: int := 339

  /** The navigation state as a value. */
  datatype View = View(deviceIndex: nat, page: nat, viewingWqeStats: bool, viewingLatencyStats: bool)

  /** Which body a tick draws: the WQE-size view is checked first, then the
      latency view, else the default view. */
  datatype Mode = Default | WqeSizeStats | LatencyHistogram

  const InitialView: View := View(0, 0, false, false)

  predicate ValidView(v: View) {
    v.deviceIndex < DeviceFileCount && !(v.viewingWqeStats && v.viewingLatencyStats)
  }

  function ActiveMode(v: View): Mode {
    if v.viewingWqeStats then WqeSizeStats
    else if v.viewingLatencyStats then LatencyHistogram
    else Default
  }

  /** The effect of one key read at the top of the outer loop. */
  function Step(v: View, key: int): View {
    if key == KeyD then v.(deviceIndex := (v.deviceIndex + 1) % DeviceFileCount)
    else if key == KeySpace then v.(page := v.page + 1)
    else if key == KeyS then v.(viewingWqeStats := true, viewingLatencyStats := false, page := 0)
    else if key == KeyL then v.(viewingLatencyStats := true, viewingWqeStats := false, page := 0)
    else if key == KeyR then v.(viewingWqeStats := false, viewingLatencyStats := false, page := 0)
    else v
  }

  /** The state after a sequence of ticks, one key (or NoKey) per tick. */
  function Run(v: View, keys: seq<int>): View
    decreases |keys|
  {
    if keys == [] then v else Run(Step(v, keys[0]), keys[1..])
  }

  /** Every key keeps the device index in range and at most one view flag set. */
  lemma StepPreservesValid(v: View, key: int)
    requires ValidView(v)
    ensures ValidView(Step(v, key))
  {
  }

  /** `d` advances the device index modulo eight and changes nothing else. */
  lemma StepDeviceKey(v: View)
    requires ValidView(v)
    ensures Step(v, KeyD).deviceIndex == (v.deviceIndex + 1) % DeviceFileCount
    ensures Step(v, KeyD).(deviceIndex := v.deviceIndex) == v
    ensures ActiveMode(Step(v, KeyD)) == ActiveMode(v)
  {
  }

  /** n presses of `d` add n to the device index modulo eight. */
  lemma {:induction false} RunDeviceKeys(v: View, n: nat)
    requires ValidView(v)
    ensures Run(v, seq(n, _ => KeyD)) == v.(deviceIndex := (v.deviceIndex + n) % DeviceFileCount)
    decreases n
  {
    if n > 0 {
      var keys := seq(n, _ => KeyD);
      assert keys[0] == KeyD && keys[1..] == seq(n - 1, _ => KeyD);
      var v' := Step(v, KeyD);
      RunDeviceKeys(v', n - 1);
      assert (v'.deviceIndex + (n - 1)) % DeviceFileCount == (v.deviceIndex + n) % DeviceFileCount;
    }
  }

  /** Eight presses of `d` come back to the device shown before. */
  lemma DeviceKeyCycles(v: View)
    requires ValidView(v)
    ensures Run(v, seq(DeviceFileCount, _ => KeyD)) == v
  {
    RunDeviceKeys(v, DeviceFileCount);
  }

  /** `s`, `l` and `r` reset the page, select one view (or none for `r`),
      and pressing the same key again changes nothing. */
  lemma ModeKeys(v: View)
    ensures Step(v, KeyS).page == 0 && ActiveMode(Step(v, KeyS)) == WqeSizeStats
    ensures Step(v, KeyL).page == 0 && ActiveMode(Step(v, KeyL)) == LatencyHistogram
    ensures Step(v, KeyR).page == 0 && ActiveMode(Step(v, KeyR)) == Default
    ensures !Step(v, KeyS).viewingLatencyStats && !Step(v, KeyL).viewingWqeStats
    ensures Step(Step(v, KeyS), KeyS) == Step(v, KeyS)
    ensures Step(Step(v, KeyL), KeyL) == Step(v, KeyL)
    ensures Step(Step(v, KeyR), KeyR) == Step(v, KeyR)
    ensures Step(v, KeyS).deviceIndex == Step(v, KeyL).deviceIndex == Step(v, KeyR).deviceIndex == v.deviceIndex
  {
  }

  /** Space moves to the next page with no upper bound and keeps the view. */
  lemma SpaceKey(v: View)
    ensures Step(v, KeySpace) == v.(page := v.page + 1)
    ensures ActiveMode(Step(v, KeySpace)) == ActiveMode(v)
  {
  }

  /** Any other key, including NoKey and `q`, leaves the state as it was. */
  lemma OtherKeys(v: View, key: int)
    requires key !in {KeyD, KeySpace, KeyS, KeyL, KeyR}
    ensures Step(v, key) == v
  {
  }

  /** `q` leaves the latency sub-loop but does not clear the latency flag:
      the next tick without a key draws the latency view again. */
  lemma QuitKeepsLatencyView(v: View)
    requires ActiveMode(v) == LatencyHistogram
    ensures ActiveMode(Step(v, NoKey)) == LatencyHistogram
    ensures ActiveMode(Step(v, KeyQ)) == LatencyHistogram
  {
  }

  /** The outer loop's navigation state: device_index (a global in the
      source) and the locals page, viewing_wqe_stats, viewing_latency_stats. */
  class Dashboard {
    var deviceIndex: nat
    var page: nat
    var viewingWqeStats: bool
    var viewingLatencyStats: bool

    function Current(): View reads this {
      View(deviceIndex, page, viewingWqeStats, viewingLatencyStats)
    }

    ghost predicate Valid() reads this {
      ValidView(Current())
    }

    constructor ()
      ensures Valid() && Current() == InitialView
    {
      deviceIndex, page := 0, 0;
      viewingWqeStats, viewingLatencyStats := false, false;
    }

    /** The key handling at the top of each tick. */
    method HandleKey(key: int)
      requires Valid()
      modifies this
      ensures Valid()
      ensures Current() == Step(old(Current()), key)
    {
      if key == KeyD {
        deviceIndex := (deviceIndex + 1) % DeviceFileCount;
      } else if key == KeySpace {
        page := page + 1;
      } else if key == KeyS {
        viewingWqeStats := true;
        viewingLatencyStats := false;
        page := 0;
      } else if key == KeyL {
        viewingLatencyStats := true;
        viewingWqeStats := false;
        page := 0;
      } else if key == KeyR {
        viewingWqeStats := false;
        viewingLatencyStats := false;
        page := 0;
      }
    }
  }

  /** total_pages of the latency view: ceil(n / itemsPerPage). */
  function LatencyTotalPages(entryCount: nat, itemsPerPage: int): (r: int)
    requires itemsPerPage > 0
    ensures r >= 0
    ensures (r - 1) * itemsPerPage < entryCount <= r * itemsPerPage || (entryCount == 0 && r == 0)
  {
    (entryCount + itemsPerPage - 1) / itemsPerPage
  }

  /** The latency sub-loop's page change for one key (other than `q`). */
  function PagerStep(currentPage: int, totalPages: int, key: int): int {
    if key == KeyRight || key == KeyNextPage then
      (if currentPage < totalPages - 1 then currentPage + 1 else currentPage)
    else if key == KeyLeft || key == KeyPrevPage then
      (if currentPage > 0 then currentPage - 1 else currentPage)
    else currentPage
  }

  /** Paging stays within the first and the last page and moves by at most one. */
  lemma PagerStepClamped(currentPage: int, totalPages: int, key: int)
    requires 0 <= currentPage <= Max(0, totalPages - 1)
    ensures 0 <= PagerStep(currentPage, totalPages, key) <= Max(0, totalPages - 1)
    ensures -1 <= PagerStep(currentPage, totalPages, key) - currentPage <= 1
  {
  }

  /** The latency view's input loop, fed with what getch returns. The
      screen is in no-delay mode, so getch does not wait and gives -1 when
      no key is pressed, a key that moves no page. The loop draws page 0, then after each key either leaves (`q`) or
      moves to PagerStep's page and draws again. Returns the pages drawn and
      the number of keys consumed. */
  method RunLatencyPager(totalPages: int, keys: seq<int>) returns (shown: seq<int>, consumed: nat)
    ensures |shown| >= 1 && shown[0] == 0
    ensures forall i :: 0 <= i < |shown| ==> 0 <= shown[i] <= Max(0, totalPages - 1)
    ensures consumed <= |keys| && |shown| == consumed + (if consumed < |keys| || (consumed > 0 && keys[consumed - 1] == KeyQ) then 0 else 1)
    ensures forall i :: 0 <= i < consumed - 1 ==> keys[i] != KeyQ
    ensures consumed < |keys| ==> consumed > 0 && keys[consumed - 1] == KeyQ
    ensures forall i :: 0 <= i < |shown| - 1 ==> shown[i + 1] == PagerStep(shown[i], totalPages, keys[i])
  {
    var currentPage := 0;
    shown := [];
    consumed := 0;
    var done := false;
    while !done
      invariant consumed <= |keys|
      invariant 0 <= currentPage <= Max(0, totalPages - 1)
      invariant forall i :: 0 <= i < |shown| ==> 0 <= shown[i] <= Max(0, totalPages - 1)
      invariant !done ==> |shown| == consumed && (consumed == 0 || keys[consumed - 1] != KeyQ)
      invariant !done ==> forall i :: 0 <= i < consumed ==> keys[i] != KeyQ
      invariant done ==> |shown| >= 1
      invariant done ==> (consumed > 0 && keys[consumed - 1] == KeyQ && |shown| == consumed) || (consumed == |keys| && |shown| == consumed + 1 && (consumed == 0 || keys[consumed - 1] != KeyQ))
      invariant done ==> forall i :: 0 <= i < consumed - 1 ==> keys[i] != KeyQ
      invariant |shown| >= 1 ==> shown[0] == 0
      invariant !done && |shown| == 0 ==> currentPage == 0
      invariant !done && |shown| >= 1 ==> currentPage == PagerStep(shown[|shown| - 1], totalPages, keys[|shown| - 1])
      invariant forall i :: 0 <= i < |shown| - 1 ==> shown[i + 1] == PagerStep(shown[i], totalPages, keys[i])
      decreases |keys| - consumed, !done
    {
      shown := shown + [currentPage];
      if consumed == |keys| {
        done := true;
      } else {
        var key := keys[consumed];
        consumed := consumed + 1;
        if key == KeyQ {
          done := true;
        } else if key == KeyRight || key == KeyNextPage {
          if currentPage < totalPages - 1 {
            currentPage := currentPage + 1;
          }
        } else if key == KeyLeft || key == KeyPrevPage {
          if currentPage > 0 {
            currentPage := currentPage - 1;
          }
        }
      }
    }
  }
}

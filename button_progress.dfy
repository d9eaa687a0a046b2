/**
 * app/components/ButtonProgress.tsx: an upload button whose interval
 * advances a progress bar in steps of 5 and then marks the upload loaded;
 * a click either starts the interval and calls `onClick`, or clears the
 * loaded state. Interval ticks are sequential steps here.
 */
module ButtonProgress {
  import opened Wrappers

  /** The progress an interval tick moves to from `current`. */
  function NextProgress(current: int): int {
    if current < 100 then current + 5 else 0
  }

  /** The progress after `ticks` ticks from 0, the interval running throughout. */
  function ProgressAfter(ticks: nat): int {
    if ticks == 0 then 0 else NextProgress(ProgressAfter(ticks - 1))
  }

  /**
   * From 0, the first 20 ticks raise the progress by exactly 5 each, up to
   * 100; the bar therefore stays a multiple of 5 within 0..100.
   */
  lemma {:induction false} ProgressAfterTicks(ticks: nat)
    requires ticks <= 20
    ensures ProgressAfter(ticks) == 5 * ticks
    ensures ProgressAfter(ticks) % 5 == 0 && 0 <= ProgressAfter(ticks) <= 100
  {
    if ticks > 0 {
      ProgressAfterTicks(ticks - 1);
    }
  }

  /** The 21st tick is the first to find the bar full: it completes the upload. */
  lemma CompletionTick(ticks: nat)
    requires ticks <= 20
    ensures ProgressAfter(ticks) < 100 <==> ticks < 20
  {
    ProgressAfterTicks(ticks);
  }

  /** The button's text. */
  function Label(progress: int, loaded: bool): string {
    if progress != 0 then "Uploading..." else if loaded then "Upload Complete" else "Upload File"
  }

  /** `Uploading...` while the bar moves, then `Upload Complete` once loaded, else `Upload File`. */
  lemma LabelRule(progress: int, loaded: bool)
    ensures Label(progress, loaded) == "Uploading..." <==> progress != 0
    ensures Label(progress, loaded) == "Upload Complete" <==> progress == 0 && loaded
    ensures Label(progress, loaded) == "Upload File" <==> progress == 0 && !loaded
  {
  }

  /** The component's state, with the interval's activity and a count of `onClick` calls. */
  class Button {
    var progress: int
    var loaded: bool
    var fileName: Option<string>
    var intervalActive: bool
    var onClickCalls: nat

    /** The bar is a multiple of 5 between 0 and 100. */
    ghost predicate Valid()
      reads this
    {
      progress % 5 == 0 && 0 <= progress <= 100
    }

    constructor ()
      ensures Valid() && progress == 0 && !loaded && fileName == None && !intervalActive && onClickCalls == 0
    {
      progress := 0;
      loaded := false;
      fileName := None;
      intervalActive := false;
      onClickCalls := 0;
    }

    /** One run of the interval callback. */
    method Tick()
      requires Valid() && intervalActive
      modifies this
      ensures Valid() && progress == NextProgress(old(progress))
      ensures old(progress) < 100 ==> intervalActive && loaded == old(loaded)
      ensures old(progress) >= 100 ==> !intervalActive && loaded
      ensures fileName == old(fileName) && onClickCalls == old(onClickCalls)
    {
      if progress < 100 {
        progress := progress + 5;
      } else {
        intervalActive := false;
        loaded := true;
        progress := 0;
      }
    }

    /**
     * `handleClick`. `picked` is the name the caller's `onClick` passes to
     * `setFileName`, if it does.
     */
    method Click(picked: Option<string>)
      requires Valid()
      modifies this
      ensures Valid()
      ensures old(loaded) ==>
        !loaded && progress == 0 && fileName == None &&
        onClickCalls == old(onClickCalls) && intervalActive == old(intervalActive)
      ensures !old(loaded) ==>
        intervalActive && onClickCalls == old(onClickCalls) + 1 && progress == old(progress) && !loaded &&
        fileName == (if picked.Some? then picked else old(fileName))
    {
      if loaded {
        loaded := false;
        progress := 0;
        fileName := None;
      } else {
        intervalActive := true;
        onClickCalls := onClickCalls + 1;
        if picked.Some? {
          fileName := picked;
        }
      }
    }

    /** Letting the interval run from an empty bar: 21 ticks, after which the upload is loaded. */
    method RunToCompletion() returns (ticks: nat)
      requires Valid() && progress == 0 && intervalActive
      modifies this
      ensures ticks == 21 && loaded && progress == 0 && !intervalActive
      ensures fileName == old(fileName) && onClickCalls == old(onClickCalls)
    {
      ticks := 0;
      while intervalActive
        invariant Valid() && ticks <= 21
        invariant intervalActive ==> ticks <= 20 && progress == ProgressAfter(ticks)
        invariant !intervalActive ==> ticks == 21 && loaded && progress == 0
        invariant fileName == old(fileName) && onClickCalls == old(onClickCalls)
        decreases 21 - ticks
      {
        CompletionTick(ticks);
        ProgressAfterTicks(ticks);
        Tick();
        ticks := ticks + 1;
      }
    }
  }
}

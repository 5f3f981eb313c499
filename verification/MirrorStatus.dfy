/** The consumer of mirror results: what counts as a failure, and when the rest of the run is cancelled. */
module MirrorStatus {
  /** A task's result; an error with source is about a copy, one with only a target about a removal. */
  datatype Status = Status(failed: bool, hasSource: bool, hasTarget: bool, ignorable: bool, permission: bool,
                           overwriteNotAllowed: bool)

  /** Failures that count: not those of a copy which may be ignored, nor refusals to overwrite that are about no object. */
  predicate Counts(s: Status) {
    s.failed &&
    if s.hasSource then !s.ignorable && !s.permission
    else s.hasTarget || !s.overwriteNotAllowed
  }

  /**
   * monitorMirrorStatus: reads the channel to its end whatever happens. The run is cancelled once: while the result
   * number `cancelledAt` is handled, or at the end.
   */
  method MonitorMirrorStatus(statusCh: seq<Status>, skipErrors: bool)
    returns (errDuringMirror: bool, received: nat, cancels: nat, cancelledAt: nat)
    ensures received == |statusCh| && cancels == 1
    ensures errDuringMirror <==> exists s | s in statusCh ::
              && s.failed
              && (s.hasSource ==> !s.ignorable && !s.permission)
              && (!s.hasSource && !s.hasTarget ==> !s.overwriteNotAllowed)
    ensures cancelledAt <= |statusCh|
    ensures forall i | 0 <= i < cancelledAt :: !Counts(statusCh[i]) || skipErrors
    ensures cancelledAt < |statusCh| ==> Counts(statusCh[cancelledAt]) && !skipErrors
  {
    errDuringMirror, received, cancels := false, 0, 0;
    var cancelInProgress := false;
    cancelledAt := |statusCh|;
    while received < |statusCh|
      invariant received <= |statusCh|
      invariant errDuringMirror <==> exists i | 0 <= i < received :: Counts(statusCh[i])
      invariant cancels == if cancelInProgress then 1 else 0
      invariant cancelInProgress ==> cancelledAt < received && Counts(statusCh[cancelledAt]) && !skipErrors
      invariant cancelInProgress ==> forall i | 0 <= i < cancelledAt :: !Counts(statusCh[i])
      invariant !cancelInProgress ==>
          cancelledAt == |statusCh| && forall i | 0 <= i < received :: !Counts(statusCh[i]) || skipErrors
    {
      var sURLs := statusCh[received];
      received := received + 1;
      if cancelInProgress {
        continue;
      }
      if sURLs.failed {
        var ignoreErr := false;
        if sURLs.hasSource {
          if sURLs.ignorable {
            ignoreErr := true;
          } else if sURLs.permission {
            ignoreErr := true;
          }
        } else if !sURLs.hasTarget {
          if sURLs.overwriteNotAllowed {
            ignoreErr := true;
          }
        }
        if !ignoreErr {
          errDuringMirror := true;
          if !skipErrors {
            cancels := cancels + 1;
            cancelInProgress := true;
            cancelledAt := received - 1;
          }
        }
      }
    }
    if !cancelInProgress {
      cancels := cancels + 1;
    }
  }
}

/** The close/minimize guard of the main window: the attempt counter,
    `overlay_open` and `active_overlay` kept on the root window, changed by
    close attempts, minimize (unmap) events and the expiry of the blocking
    overlay. Timers are events: the overlay's `finish` is called by the
    environment when its duration has elapsed. Focus and raise calls are
    reported as the handler's `Reaction`. */
module WindowGuard {
  import opened Text

  /** A full-screen blocking overlay window. */
  class Overlay {
    const durationMs: nat

    constructor (durationMs: nat)
      ensures this.durationMs == durationMs
    {
      this.durationMs := durationMs;
    }
  }

  /** What a close or minimize attempt leads to on screen. */
  datatype Reaction =
    | Warned                            // "Don't do this again", main window brought to front
    | OpenedOverlay(overlay: Overlay)   // a new overlay is shown, to expire after its duration
    | RefocusedOverlay(overlay: Overlay)  // the open overlay is brought to front again

  /** The overlay duration drawn by `random.randint(9, 17) * 1000`. */
  predicate IsOverlaySeconds(seconds: int) {
    9 <= seconds <= 17
  }

  /** The root window's guard state. */
  class Root {
    var attempts: nat
    var overlayOpen: bool
    var activeOverlay: Overlay?

    /** The overlay flag and the overlay reference agree: at most one
        overlay is known, and it is known exactly while one is open. */
    ghost predicate Consistent()
      reads this
    {
      overlayOpen <==> activeOverlay != null
    }

    /** The guard's invariant: besides `Consistent`, an overlay is open only
        after at least two attempts, so the first attempt never has one. */
    ghost predicate Valid()
      reads this
    {
      Consistent() && (overlayOpen ==> attempts >= 2)
    }

    /** The state `run_app` sets up: no attempts, no overlay. */
    constructor ()
      ensures Valid()
      ensures attempts == 0 && !overlayOpen && activeOverlay == null
    {
      attempts := 0;
      overlayOpen := false;
      activeOverlay := null;
    }

    /** `show_overlay_then_reset`: if an overlay is already open, only
        bring it to front; otherwise create one and record it. */
    method ShowOverlayThenReset(durationMs: nat) returns (r: Reaction)
      requires Consistent()
      modifies this
      ensures Consistent() && attempts == old(attempts)
      ensures old(overlayOpen) ==>
                r == RefocusedOverlay(old(activeOverlay)) && overlayOpen && activeOverlay == old(activeOverlay)
      ensures !old(overlayOpen) ==>
                && r.OpenedOverlay? && fresh(r.overlay) && r.overlay.durationMs == durationMs
                && overlayOpen && activeOverlay == r.overlay
    {
      if overlayOpen {
        return RefocusedOverlay(activeOverlay);
      }
      var overlay := new Overlay(durationMs);
      overlayOpen := true;
      activeOverlay := overlay;
      r := OpenedOverlay(overlay);
    }

    /** The attempt handling shared by `on_close_attempt` and `on_unmap`:
        count the attempt, warn on the first, otherwise show (or refocus)
        the overlay. `seconds` is the drawn overlay duration. */
    method Escalate(seconds: int) returns (r: Reaction)
      requires Valid() && IsOverlaySeconds(seconds)
      modifies this
      ensures Valid()
      ensures attempts == old(attempts) + 1
      ensures attempts == 1 ==>
                r == Warned && overlayOpen == old(overlayOpen) && activeOverlay == old(activeOverlay)
      ensures attempts > 1 && old(overlayOpen) ==>
                r == RefocusedOverlay(old(activeOverlay)) && overlayOpen && activeOverlay == old(activeOverlay)
      ensures attempts > 1 && !old(overlayOpen) ==>
                && r.OpenedOverlay? && fresh(r.overlay) && r.overlay.durationMs == seconds * 1000
                && overlayOpen && activeOverlay == r.overlay
    {
      attempts := attempts + 1;
      if attempts == 1 {
        r := Warned;
      } else {
        var dur := seconds * 1000;
        r := ShowOverlayThenReset(dur);
      }
    }

    /** `on_close_attempt`, bound to the window manager's close button. */
    method OnCloseAttempt(seconds: int) returns (r: Reaction)
      requires Valid() && IsOverlaySeconds(seconds)
      modifies this
      ensures Valid()
      ensures attempts == old(attempts) + 1
      ensures attempts == 1 ==>
                r == Warned && overlayOpen == old(overlayOpen) && activeOverlay == old(activeOverlay)
      ensures attempts > 1 && old(overlayOpen) ==>
                r == RefocusedOverlay(old(activeOverlay)) && overlayOpen && activeOverlay == old(activeOverlay)
      ensures attempts > 1 && !old(overlayOpen) ==>
                && r.OpenedOverlay? && fresh(r.overlay) && r.overlay.durationMs == seconds * 1000
                && overlayOpen && activeOverlay == r.overlay
    {
      r := Escalate(seconds);
    }

    /** `on_unmap`: only an unmap that leaves the window iconic counts as
        an attempt (and schedules `deiconify`); any other unmap does
        nothing. The result is `None` when nothing happened. */
    method OnUnmap(iconic: bool, seconds: int) returns (r: Option<Reaction>)
      requires Valid() && IsOverlaySeconds(seconds)
      modifies this
      ensures Valid()
      ensures !iconic ==> r == None && unchanged(this)
      ensures iconic ==> r.Some? && attempts == old(attempts) + 1
      ensures iconic && attempts == 1 ==>
                r == Some(Warned) && overlayOpen == old(overlayOpen) && activeOverlay == old(activeOverlay)
      ensures iconic && attempts > 1 && old(overlayOpen) ==>
                r == Some(RefocusedOverlay(old(activeOverlay))) && overlayOpen && activeOverlay == old(activeOverlay)
      ensures iconic && attempts > 1 && !old(overlayOpen) ==>
                && r.Some? && r.value.OpenedOverlay? && fresh(r.value.overlay)
                && r.value.overlay.durationMs == seconds * 1000
                && overlayOpen && activeOverlay == r.value.overlay
    {
      if iconic {
        var reaction := Escalate(seconds);
        r := Some(reaction);
      } else {
        r := None;
      }
    }

    /** The overlay's `finish`: close it and reset the guard entirely. */
    method Finish()
      modifies this
      ensures Valid()
      ensures !overlayOpen && activeOverlay == null && attempts == 0
    {
      overlayOpen := false;
      activeOverlay := null;
      attempts := 0;
    }
  }

  /** Three close attempts with no expiry in between: a warning, one new
      overlay, then a refocus of that same overlay; the counter reads 3
      until the overlay expires and resets it. */
  method ThreeCloseAttempts(s1: int, s2: int, s3: int)
    returns (r1: Reaction, r2: Reaction, r3: Reaction, attemptsBefore: nat, attemptsAfter: nat)
    requires IsOverlaySeconds(s1) && IsOverlaySeconds(s2) && IsOverlaySeconds(s3)
    ensures r1 == Warned
    ensures r2.OpenedOverlay? && r2.overlay.durationMs == s2 * 1000
    ensures r3 == RefocusedOverlay(r2.overlay)
    ensures attemptsBefore == 3 && attemptsAfter == 0
  {
    var root := new Root();
    r1 := root.OnCloseAttempt(s1);
    r2 := root.OnCloseAttempt(s2);
    r3 := root.OnCloseAttempt(s3);
    attemptsBefore := root.attempts;
    root.Finish();
    attemptsAfter := root.attempts;
  }

  /** After a reset, the cycle starts over: the next attempt only warns. */
  method AttemptAfterExpiry(s: int) returns (r: Reaction)
    requires IsOverlaySeconds(s)
    ensures r == Warned
  {
    var root := new Root();
    var a := root.OnCloseAttempt(s);
    var b := root.OnCloseAttempt(s);
    root.Finish();
    r := root.OnCloseAttempt(s);
  }
}

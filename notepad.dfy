/** `BinaryTypingNotepad`: a window that types its content one character per
    timer tick over a running rain canvas, refuses to close while typing,
    then fades the canvas out and lets the window close normally. Each
    timer callback is one method call; the delay the source passes to
    `after` is the call's result. */
module Notepad {
  import opened Animation

  /** The notepad's size in pixels, which is also its canvas's size. */
  const NotepadWidth: int := 920
  const NotepadHeight: int := 480
  /** `BinaryRainCanvas`'s default frame delay. */
  const RainSpeed: int := 35
  /** Pause between the end of typing and the first fade step. */
  const FadeStartDelay: nat := 250

  /** `160 if ch in ".!?" else (70 if ch == "\n" else 0)`. */
  function Extra(ch: char): (e: nat)
    ensures e == 160 <==> ch in ".!?"
    ensures e == 70 <==> ch == '\n'
    ensures e == 0 <==> ch !in ".!?\n"
  {
    if ch in ".!?" then 160 else if ch == '\n' then 70 else 0
  }

  /** `max(10, delay + extra)`: the wait before the character after `ch`. */
  function NextDelay(delay: int, ch: char): (d: int)
    ensures d >= 10 && d >= delay + Extra(ch)
    ensures d == 10 || d == delay + Extra(ch)
  {
    if delay + Extra(ch) < 10 then 10 else delay + Extra(ch)
  }

  /** With the notepad's usual base delay, a sentence end pauses longest, a
      line break less, any other character least. */
  lemma PausesOrdered(delay: int, stop: char, ch: char)
    requires delay >= 10 && stop in ".!?" && ch !in ".!?\n"
    ensures NextDelay(delay, stop) == delay + 160
    ensures NextDelay(delay, '\n') == delay + 70
    ensures NextDelay(delay, ch) == delay
  {
  }

  /** `max(20, int(fade_time / steps))`: the wait between fade steps. */
  function FadeDelay(fadeTime: int): (d: int)
    ensures d >= 20
    ensures fadeTime >= 240 ==> d * FadeSteps <= fadeTime < (d + 1) * FadeSteps
    ensures fadeTime < 240 ==> d == 20
  {
    var perStep := if fadeTime >= 0 then fadeTime / FadeSteps else -((-fadeTime) / FadeSteps);
    if perStep < 20 then 20 else perStep
  }

  /** The waits between consecutive characters of `content`. */
  function TypingDelays(delay: int, content: string): (ds: seq<int>)
    ensures |ds| == |content|
    ensures forall i :: 0 <= i < |content| ==> ds[i] >= 10
  {
    seq(|content|, i requires 0 <= i < |content| => NextDelay(delay, content[i]))
  }

  /** What one `_type_next_char` tick does. */
  datatype TypingStep =
    | Typed(next: int)    // a character was typed; the next tick is `next` ms later
    | Finished(next: int) // typing is over; the fade starts `next` ms later

  /** What one tick of the fade does. */
  datatype FadeFrame =
    | Shade(color: string, next: int) // the overlay colour drawn; the next step `next` ms later
    | Done                            // the canvas stops and the window becomes closable

  class TypingNotepad {
    const content: string
    const delay: int
    const fadeTime: int
    const canvas: RainCanvas
    var idx: nat
    var typingRunning: bool
    /** What the text widget shows. */
    var shown: string
    /** The text widget's state is "normal" (else "disabled"). */
    var editable: bool
    /** `WM_DELETE_WINDOW` is bound to `destroy` (else to `inert_close`). */
    var closeDestroys: bool
    var destroyed: bool

    /** The widget shows exactly the typed prefix; typing stops only at
        the end of the content; the text becomes editable exactly when
        typing stops; closing is unlocked only after that. */
    ghost predicate Valid()
      reads this, canvas, canvas.drops
    {
      && idx <= |content|
      && shown == content[..idx]
      && (!typingRunning ==> idx == |content|)
      && editable == !typingRunning
      && (closeDestroys ==> !typingRunning)
      && canvas.Valid()
    }

    /** `__init__`: a 920x480 window whose rain canvas (with the drawn
        initial drops and first-frame steps) is started at once. */
    constructor (content: string, delay: int, fadeTime: int,
                 initial: seq<int>, advances: seq<int>, restarts: seq<int>)
      requires |initial| == Columns(NotepadWidth)
      requires forall i :: 0 <= i < |initial| ==> -NotepadHeight <= initial[i] <= 0
      requires |advances| == |initial| && |restarts| == |initial|
      requires forall i :: 0 <= i < |initial| ==> IsAdvance(advances[i]) && IsRestart(restarts[i])
      ensures Valid() && fresh(canvas) && fresh(canvas.drops)
      ensures this.content == content && this.delay == delay && this.fadeTime == fadeTime
      ensures idx == 0 && typingRunning && shown == [] && !editable && !closeDestroys && !destroyed
      ensures canvas.running && canvas.width == NotepadWidth && canvas.height == NotepadHeight
      ensures canvas.speed == RainSpeed
      ensures canvas.drops[..] == AnimatedDrops(initial, advances, restarts, NotepadHeight)
    {
      this.content := content;
      this.delay := delay;
      this.fadeTime := fadeTime;
      var rain := new RainCanvas(NotepadWidth, NotepadHeight, RainSpeed, initial);
      var firstFrame := rain.Start(advances, restarts);
      canvas := rain;
      idx := 0;
      typingRunning := true;
      shown := [];
      editable := false;
      closeDestroys := false;
      destroyed := false;
    }

    /** `_type_next_char`: type the next character and ask for the next
        tick after its delay, or, past the end, stop typing and make the
        text editable. */
    method TypeNextChar() returns (step: TypingStep)
      requires Valid()
      modifies this
      ensures Valid()
      ensures old(idx) < |content| ==>
                && step == Typed(NextDelay(delay, content[old(idx)]))
                && idx == old(idx) + 1 && shown == old(shown) + [content[old(idx)]]
                && typingRunning == old(typingRunning) && editable == old(editable)
      ensures old(idx) >= |content| ==>
                step == Finished(FadeStartDelay) && idx == old(idx) && shown == old(shown) && !typingRunning && editable
      ensures closeDestroys == old(closeDestroys) && destroyed == old(destroyed)
    {
      if idx >= |content| {
        typingRunning := false;
        editable := true;
        return Finished(FadeStartDelay);
      }
      var ch := content[idx];
      assert content[..idx + 1] == content[..idx] + [ch];
      shown := shown + [ch];
      idx := idx + 1;
      step := Typed(NextDelay(delay, ch));
    }

    /** `inert_close`: while typing, warn and refocus; afterwards destroy
        the window. */
    method InertClose() returns (closed: bool)
      requires Valid()
      modifies this
      ensures Valid()
      ensures closed == !typingRunning && destroyed == (old(destroyed) || closed)
      ensures idx == old(idx) && typingRunning == old(typingRunning) && shown == old(shown)
      ensures editable == old(editable) && closeDestroys == old(closeDestroys)
    {
      if typingRunning {
        closed := false;
      } else {
        destroyed := true;
        closed := true;
      }
    }

    /** The window manager's close button: `inert_close` until the fade
        has rebound it to `destroy`. Either way the window goes only once
        typing is over. */
    method WindowClose() returns (closed: bool)
      requires Valid()
      modifies this
      ensures Valid()
      ensures closed == !typingRunning && destroyed == (old(destroyed) || closed)
      ensures idx == old(idx) && typingRunning == old(typingRunning) && shown == old(shown)
      ensures editable == old(editable) && closeDestroys == old(closeDestroys)
    {
      if closeDestroys {
        destroyed := true;
        closed := true;
      } else {
        closed := InertClose();
      }
    }

    /** `step(i)` of `_fade_background_and_enable_close`, which is only
        started once typing has finished: steps 0..12 draw the grey of the
        step; step 13 stops the canvas and makes close destroy the window. */
    method FadeStep(i: nat) returns (frame: FadeFrame)
      requires Valid() && !typingRunning
      modifies this, canvas
      ensures Valid()
      ensures i <= FadeSteps ==>
                && frame == Shade(GreyColor(GreyLevel(i)), FadeDelay(fadeTime))
                && closeDestroys == old(closeDestroys) && canvas.running == old(canvas.running)
      ensures i > FadeSteps ==> frame == Done && closeDestroys && !canvas.running
      ensures idx == old(idx) && typingRunning == old(typingRunning) && shown == old(shown)
      ensures editable == old(editable) && destroyed == old(destroyed)
      ensures unchanged(canvas.drops)
    {
      if i > FadeSteps {
        canvas.Stop();
        closeDestroys := true;
        return Done;
      }
      var grey := GreyLevel(i);
      frame := Shade(GreyColor(grey), FadeDelay(fadeTime));
    }
  }

  /** The whole typing run, tick after tick from a fresh notepad: one
      `Typed` per character with that character's delay, then `Finished`.
      Afterwards the widget shows the whole content and the window can be
      closed. */
  method TypeAll(pad: TypingNotepad) returns (delays: seq<int>)
    requires pad.Valid() && pad.idx == 0 && pad.typingRunning
    modifies pad
    ensures pad.Valid()
    ensures delays == TypingDelays(pad.delay, pad.content)
    ensures pad.shown == pad.content && !pad.typingRunning && pad.editable
    ensures pad.destroyed == old(pad.destroyed) && pad.closeDestroys == old(pad.closeDestroys)
  {
    delays := [];
    var step := pad.TypeNextChar();
    while step.Typed?
      invariant pad.Valid()
      invariant step.Typed? ==>
                  pad.idx >= 1 && delays + [step.next] == TypingDelays(pad.delay, pad.content[..pad.idx])
      invariant step.Finished? ==>
                  !pad.typingRunning && pad.idx == |pad.content| && delays == TypingDelays(pad.delay, pad.content)
      invariant pad.destroyed == old(pad.destroyed) && pad.closeDestroys == old(pad.closeDestroys)
      decreases |pad.content| - pad.idx + if step.Typed? then 1 else 0
    {
      delays := delays + [step.next];
      ghost var typed := pad.idx;
      step := pad.TypeNextChar();
      if step.Typed? {
        assert TypingDelays(pad.delay, pad.content[..typed + 1]) ==
               TypingDelays(pad.delay, pad.content[..typed]) + [step.next];
      } else {
        assert pad.content[..typed] == pad.content;
      }
    }
  }
}

/** The small arithmetic behind the prank's animations: the grey level of the
    notepad's fade, the header's colour pulse, the overlay's dot cycle, and
    the rain canvas whose drops fall and wrap around. Each drawing call
    is left out; the random draws are parameters. */
module Animation {
  import opened Text

  /** Number of steps of the notepad fade. */
  const FadeSteps: nat := 12

  /** `int((i / steps) * 60)` clamped to 0..255, for the fade steps
      `i` in 0..12 (where the floating-point value is exact). */
  function GreyLevel(i: nat): (g: nat)
    requires i <= FadeSteps
    ensures g <= 60 && g <= 255
    ensures g * FadeSteps <= i * 60 < (g + 1) * FadeSteps
  {
    Clamp(i * 60 / FadeSteps, 0, 255)
  }

  /** `max(lo, min(hi, x))`. */
  function Clamp(x: int, lo: int, hi: int): (r: int)
    requires lo <= hi
    ensures lo <= r <= hi
    ensures lo <= x <= hi ==> r == x
  {
    if x < lo then lo else if x > hi then hi else x
  }

  /** The fade only gets lighter, from black to `#3c3c3c`. */
  lemma GreyLevelMonotone(i: nat, j: nat)
    requires i <= j <= FadeSteps
    ensures GreyLevel(i) <= GreyLevel(j)
    ensures GreyLevel(0) == 0 && GreyLevel(FadeSteps) == 60
  {
  }

  const HexDigits: string := "0123456789abcdef"

  /** The `02x` format of `g` in 0..255: two lower-case hex digits. */
  function Hex2(g: nat): (s: string)
    requires g <= 255
    ensures |s| == 2 && s[0] in HexDigits && s[1] in HexDigits
  {
    [HexDigits[g / 16], HexDigits[g % 16]]
  }

  /** The value of a lower-case hexadecimal digit. */
  function HexValue(c: char): (v: nat)
    requires c in HexDigits
    ensures v < 16 && HexDigits[v] == c
  {
    if '0' <= c <= '9' then c as int - '0' as int else c as int - 'a' as int + 10
  }

  /** The overlay colour `#gggggg` of one fade step. */
  function GreyColor(g: nat): (color: string)
    requires g <= 255
    ensures |color| == 7 && color[0] == '#'
  {
    "#" + Hex2(g) + Hex2(g) + Hex2(g)
  }

  /** The colour string can be read back: its red (and green, and blue)
      component is the grey level. */
  lemma {:induction false} GreyColorReadsBack(g: nat)
    requires g <= 255
    ensures HexValue(GreyColor(g)[1]) * 16 + HexValue(GreyColor(g)[2]) == g
    ensures GreyColor(g)[1..3] == GreyColor(g)[3..5] == GreyColor(g)[5..7]
  {
    var h := Hex2(g);
    assert GreyColor(g) == ['#', h[0], h[1], h[0], h[1], h[0], h[1]];
    assert HexValue(h[0]) == g / 16 && HexValue(h[1]) == g % 16 by {
      HexIndexValue(g / 16);
      HexIndexValue(g % 16);
    }
  }

  lemma HexIndexValue(v: nat)
    requires v < 16
    ensures HexValue(HexDigits[v]) == v
  {
  }

  /** The header's three red tones. */
  const Pulse: seq<string> := ["#ff2e2e", "#cc2323", "#990f0f"]

  /** `pi["i"] = (pi["i"] + 1) % len(pulse)`. */
  function PulseNext(i: nat): (j: nat)
    ensures j < |Pulse|
    ensures i < |Pulse| ==> j == if i + 1 == |Pulse| then 0 else i + 1
  {
    (i + 1) % |Pulse|
  }

  /** The pulse comes back to the same colour every three ticks. */
  lemma PulseCycles(i: nat)
    requires i < |Pulse|
    ensures PulseNext(PulseNext(PulseNext(i))) == i
    ensures PulseNext(i) != i
  {
  }

  /** The overlay's dot animation: `steps[i % len(steps)]`. */
  const DotSteps: seq<string> := ["", ".", "..", "..."]

  function Dots(i: nat): (s: string)
    ensures |s| == i % 4 && forall k :: 0 <= k < |s| ==> s[k] == '.'
  {
    DotSteps[i % |DotSteps|]
  }

  /** `max(10, int(width / 10))`: at least ten columns, one per 10 pixels. */
  function Columns(width: int): (n: nat)
    ensures n >= 10 && (width >= 100 ==> n * 10 <= width < (n + 1) * 10)
    ensures width < 100 ==> n == 10
  {
    var perTen := if width >= 0 then width / 10 else -((-width) / 10);
    if perTen < 10 then 10 else perTen
  }

  /** `randint(8, 20)` step length. */
  predicate IsAdvance(a: int) {
    8 <= a <= 20
  }

  /** `randint(-160, -20)` restart height. */
  predicate IsRestart(r: int) {
    -160 <= r <= -20
  }

  /** One drop's update: fall by `advance`; past the bottom margin it
      restarts above the top. */
  function DropUpdate(y: int, advance: int, restart: int, height: int): (y': int)
    requires IsAdvance(advance) && IsRestart(restart)
    ensures y + advance <= height + 40 ==> y' == y + advance
    ensures y + advance > height + 40 ==> y' == restart
  {
    var moved := y + advance;
    if moved > height + 40 then restart else moved
  }

  /** All drops after one call of `_animate`. */
  function AnimatedDrops(drops: seq<int>, advances: seq<int>, restarts: seq<int>, height: int): (r: seq<int>)
    requires |advances| == |drops| && |restarts| == |drops|
    requires forall i :: 0 <= i < |drops| ==> IsAdvance(advances[i]) && IsRestart(restarts[i])
    ensures |r| == |drops|
  {
    seq(|drops|, i requires 0 <= i < |drops| => DropUpdate(drops[i], advances[i], restarts[i], height))
  }

  /** The band every drop stays within: never below the bottom margin, and
      never higher than its start or the highest restart point. */
  predicate InBand(y: int, height: int) {
    (if -height < -160 then -height else -160) <= y <= height + 40
  }

  /** A drop in the band stays in it. */
  lemma DropStaysInBand(y: int, advance: int, restart: int, height: int)
    requires InBand(y, height) && IsAdvance(advance) && IsRestart(restart) && height >= 0
    ensures InBand(DropUpdate(y, advance, restart, height), height)
  {
  }

  /** Until it passes the bottom margin, a drop only moves down. */
  lemma DropFalls(y: int, advance: int, restart: int, height: int)
    requires IsAdvance(advance) && IsRestart(restart) && y + advance <= height + 40
    ensures DropUpdate(y, advance, restart, height) > y
  {
  }

  /** `BinaryRainCanvas`: one drop height per column. */
  class RainCanvas {
    const width: int
    const height: int
    const speed: int
    const columns: nat
    const drops: array<int>
    var running: bool

    ghost predicate Valid()
      reads this, drops
    {
      && height >= 0
      && columns == Columns(width)
      && drops.Length == columns
      && forall i :: 0 <= i < drops.Length ==> InBand(drops[i], height)
    }

    /** `__init__`: `initial` holds the drawn `randint(-height, 0)` per
        column; the rain is not running yet. */
    constructor (width: int, height: int, speed: int, initial: seq<int>)
      requires |initial| == Columns(width)
      requires forall i :: 0 <= i < |initial| ==> -height <= initial[i] <= 0
      ensures Valid() && fresh(drops)
      ensures this.width == width && this.height == height && this.speed == speed
      ensures drops[..] == initial && !running
    {
      assert -height <= initial[0] <= 0;
      this.width := width;
      this.height := height;
      this.speed := speed;
      columns := |initial|;
      drops := new int[|initial|](i requires 0 <= i < |initial| => initial[i]);
      running := false;
    }

    /** `start`: set the rain running and draw its first frame at once; the
        next frame is due `speed` ms later. */
    method Start(advances: seq<int>, restarts: seq<int>) returns (next: Option<int>)
      requires Valid()
      requires |advances| == columns && |restarts| == columns
      requires forall i :: 0 <= i < columns ==> IsAdvance(advances[i]) && IsRestart(restarts[i])
      modifies this, drops
      ensures Valid() && running && next == Some(speed)
      ensures drops[..] == AnimatedDrops(old(drops[..]), advances, restarts, height)
    {
      running := true;
      next := Animate(advances, restarts);
    }

    /** `stop`: the next scheduled frame does nothing. */
    method Stop()
      requires Valid()
      modifies this
      ensures Valid() && !running && unchanged(drops)
    {
      running := false;
    }

    /** `_animate`: when running, every drop moves one step and the next
        frame is scheduled after `speed` ms (the result); when stopped,
        nothing changes and no frame is scheduled (`None`). */
    method Animate(advances: seq<int>, restarts: seq<int>) returns (next: Option<int>)
      requires Valid()
      requires |advances| == columns && |restarts| == columns
      requires forall i :: 0 <= i < columns ==> IsAdvance(advances[i]) && IsRestart(restarts[i])
      modifies drops
      ensures Valid() && (running ==> next == Some(speed)) && (!running ==> next == None)
      ensures running ==> drops[..] == AnimatedDrops(old(drops[..]), advances, restarts, height)
      ensures !running ==> drops[..] == old(drops[..])
    {
      if !running {
        return None;
      }
      for i := 0 to drops.Length
        invariant forall k :: 0 <= k < i ==> drops[k] == DropUpdate(old(drops[k]), advances[k], restarts[k], height)
        invariant forall k :: i <= k < drops.Length ==> drops[k] == old(drops[k])
        invariant forall k :: 0 <= k < drops.Length ==> InBand(drops[k], height)
      {
        DropStaysInBand(drops[i], advances[i], restarts[i], height);
        var y := drops[i] + advances[i];
        if y > height + 40 {
          y := restarts[i];
        }
        drops[i] := y;
      }
      next := Some(speed);
    }
  }
}

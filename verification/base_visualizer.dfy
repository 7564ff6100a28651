/** The configuration every visualizer shares: paint style, gravity, speed,
    density, stroke width, the visibility flag and the current waveform
    buffer, with the XML attribute parsing and the setters of the base
    class. Colour and the Android paint object are not modelled. */
module BaseVisualizer {
  import opened Outcome
  import opened AVConstants
  import opened Sampling

  /** The platform capture source attached by `setAudioSessionId`. */
  datatype Capture = Detached | Attached(released: bool)

  datatype Config = Config(
    style: PaintStyle,
    gravity: PositionGravity,
    speed: AnimSpeed,
    enabled: bool,
    density: real,
    strokeWidth: real,
    buffer: Option<seq<SByte>>,
    capture: Capture)

  /** The field initialisers of the base class. */
  const Defaults: Config :=
    Config(Fill, Bottom, Medium, true, DefaultDensity, DefaultStrokeWidth, None, Detached)

  /** The styled attributes of a layout declaration; None is an attribute
      the declaration leaves out. */
  datatype Attributes = Attributes(
    density: Option<real>,
    width: Option<real>,
    avType: Option<string>,
    avGravity: Option<string>,
    avSpeed: Option<string>)

  // ---------------------------------------------------------------------------
  // Case-insensitive matching (ASCII letters only)

  function LowerChar(c: char): (d: char)
    ensures 'A' <= c <= 'Z' ==> d as int == c as int + 32
    ensures !('A' <= c <= 'Z') ==> d == c
  {
    if 'A' <= c <= 'Z' then (c as int + 32) as char else c
  }

  /** `toLowerCase()`. */
  function Lower(s: string): (t: string)
    ensures |t| == |s|
    ensures forall i :: 0 <= i < |s| ==> t[i] == LowerChar(s[i])
  {
    seq(|s|, i requires 0 <= i < |s| => LowerChar(s[i]))
  }

  /** s spells the lower-case word w in any mixture of letter cases. */
  ghost predicate SpellsIgnoringCase(s: string, w: string)
  {
    |s| == |w| && forall i :: 0 <= i < |s| ==> s[i] == w[i] || LowerChar(s[i]) == w[i]
  }

  /** For a word already in lower case, comparing after `toLowerCase()` is
      the same as comparing letter by letter in either case. */
  lemma LowerMatchesIgnoringCase(s: string, w: string)
    requires Lower(w) == w
    ensures Lower(s) == w <==> SpellsIgnoringCase(s, w)
  {
    if SpellsIgnoringCase(s, w) {
      forall i | 0 <= i < |s|
        ensures Lower(s)[i] == w[i]
      {
        if s[i] == w[i] {
          assert LowerChar(w[i]) == Lower(w)[i];
        }
      }
    }
  }

  // ---------------------------------------------------------------------------
  // Attribute parsing

  /** `avType`: "outline" in any case gives OUTLINE, anything else FILL. */
  function ParsePaintStyle(s: string): (p: PaintStyle)
    ensures p == Outline <==> SpellsIgnoringCase(s, "outline")
  {
    LowerMatchesIgnoringCase(s, "outline");
    if Lower(s) == "outline" then Outline else Fill
  }

  /** `avGravity`: "top" in any case gives TOP, anything else BOTTOM. */
  function ParseGravity(s: string): (g: PositionGravity)
    ensures g == Top <==> SpellsIgnoringCase(s, "top")
  {
    LowerMatchesIgnoringCase(s, "top");
    if Lower(s) == "top" then Top else Bottom
  }

  /** `avSpeed`: "slow" and "fast" in any case, MEDIUM for anything else. */
  function ParseSpeed(s: string): (a: AnimSpeed)
    ensures a == Slow <==> SpellsIgnoringCase(s, "slow")
    ensures a == Fast <==> SpellsIgnoringCase(s, "fast")
    ensures a == Medium <==> !SpellsIgnoringCase(s, "slow") && !SpellsIgnoringCase(s, "fast")
  {
    LowerMatchesIgnoringCase(s, "slow");
    LowerMatchesIgnoringCase(s, "fast");
    var l := Lower(s);
    if l == "slow" then Slow else if l == "fast" then Fast else Medium
  }

  /** The configuration after construction: the defaults, overridden by
      whatever the layout declares. An absent string attribute keeps the
      default; absent numeric ones read back their defaults. */
  function InitAttributes(attrs: Option<Attributes>): (c: Config)
    ensures c.enabled && c.buffer == None && c.capture == Detached
    ensures attrs.None? ==> c == Defaults
    ensures attrs.Some? ==>
              var a := attrs.value;
              && (a.density.Some? ==> c.density == a.density.value)
              && (a.density.None? ==> c.density == DefaultDensity)
              && (a.width.Some? ==> c.strokeWidth == a.width.value)
              && (a.width.None? ==> c.strokeWidth == DefaultStrokeWidth)
              && (c.style == Outline <==> a.avType.Some? && SpellsIgnoringCase(a.avType.value, "outline"))
              && (c.gravity == Top <==> a.avGravity.Some? && SpellsIgnoringCase(a.avGravity.value, "top"))
              && (a.avSpeed.None? ==> c.speed == Medium)
              && (a.avSpeed.Some? ==> c.speed == ParseSpeed(a.avSpeed.value))
  {
    match attrs
    case None => Defaults
    case Some(a) =>
      Defaults.(
        density := if a.density.Some? then a.density.value else DefaultDensity,
        strokeWidth := if a.width.Some? then a.width.value else DefaultStrokeWidth,
        style := if a.avType.Some? then ParsePaintStyle(a.avType.value) else Defaults.style,
        gravity := if a.avGravity.Some? then ParseGravity(a.avGravity.value) else Defaults.gravity,
        speed := if a.avSpeed.Some? then ParseSpeed(a.avSpeed.value) else Defaults.speed)
  }

  // ---------------------------------------------------------------------------
  // Setters

  /** The frame gate: a shape draws only while enabled and holding a
      non-empty buffer. */
  predicate Active(c: Config)
  {
    c.enabled && c.buffer.Some? && |c.buffer.value| > 0
  }

  /** The fields a caller can observe, minus the one a setter targets. */
  predicate SameExceptVisibility(c: Config, d: Config)
  {
    c.(enabled := d.enabled) == d
  }

  function Show(c: Config): (d: Config)
    ensures d.enabled && SameExceptVisibility(c, d)
    ensures Active(d) <==> c.buffer.Some? && |c.buffer.value| > 0
  {
    c.(enabled := true)
  }

  function Hide(c: Config): (d: Config)
    ensures !d.enabled && SameExceptVisibility(c, d)
    ensures !Active(d)
  {
    c.(enabled := false)
  }

  /** A sequence of show (true) and hide (false) calls. */
  function ApplyVisibility(c: Config, calls: seq<bool>): Config
    decreases |calls|
  {
    if calls == [] then c
    else ApplyVisibility(if calls[0] then Show(c) else Hide(c), calls[1..])
  }

  /** Show and hide touch nothing but the flag, and the last call wins;
      in particular each is idempotent. */
  lemma {:induction false} LastVisibilityCallWins(c: Config, calls: seq<bool>)
    ensures SameExceptVisibility(c, ApplyVisibility(c, calls))
    ensures ApplyVisibility(c, calls).enabled == (if calls == [] then c.enabled else calls[|calls| - 1])
    decreases |calls|
  {
    if calls != [] {
      var c1 := if calls[0] then Show(c) else Hide(c);
      LastVisibilityCallWins(c1, calls[1..]);
      if |calls| > 1 {
        assert calls[1..][|calls[1..]| - 1] == calls[|calls| - 1];
      }
    }
  }

  function SetPaintStyle(c: Config, s: PaintStyle): (d: Config)
    ensures d.style == s && d.(style := c.style) == c
  {
    c.(style := s)
  }

  function SetPositionGravity(c: Config, g: PositionGravity): (d: Config)
    ensures d.gravity == g && d.(gravity := c.gravity) == c
  {
    c.(gravity := g)
  }

  function SetAnimationSpeed(c: Config, s: AnimSpeed): (d: Config)
    ensures d.speed == s && d.(speed := c.speed) == c
  {
    c.(speed := s)
  }

  function SetStrokeWidth(c: Config, w: real): (d: Config)
    ensures d.strokeWidth == w && d.(strokeWidth := c.strokeWidth) == c
  {
    c.(strokeWidth := w)
  }

  /** The density half of `setDensity`; each shape reruns its own `init`. */
  function SetDensity(c: Config, density: real): (d: Config)
    ensures d.density == density && d.(density := c.density) == c
  {
    c.(density := density)
  }

  /** The buffer reference is replaced wholesale, possibly by null. */
  function SetRawAudioBytes(c: Config, bytes: Option<seq<SByte>>): (d: Config)
    ensures d.buffer == bytes && d.(buffer := c.buffer) == c
    ensures Active(d) <==> c.enabled && bytes.Some? && |bytes.value| > 0
  {
    c.(buffer := bytes)
  }

  /** `release`: a no-op when nothing was ever attached. */
  function Release(c: Config): (d: Config)
    ensures c.capture == Detached ==> d == c
    ensures c.capture.Attached? ==> d.capture == Attached(true)
    ensures d.(capture := c.capture) == c
  {
    match c.capture
    case Detached => c
    case Attached(_) => c.(capture := Attached(true))
  }
}

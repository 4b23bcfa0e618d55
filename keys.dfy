/**
 * Key normalisation, host detection and the two static key tables of the
 * keydown handler in universal-video-controller/content.js.
 */
module Keys {
  import opened Wrappers

  // ---------------------------------------------------------------------------
  // Key normalisation: `e.key.toLowerCase()`
  // ---------------------------------------------------------------------------

  /** Lower-cases one ASCII capital; every other character is left alone. */
  function LowerChar(c: char): char
  {
    if 'A' <= c <= 'Z' then (c as int + 32) as char else c
  }

  /** `toLowerCase`, restricted to the ASCII letters. */
  function ToLower(s: string): (r: string)
    ensures |r| == |s|
    ensures forall i :: 0 <= i < |s| ==> r[i] == LowerChar(s[i])
    ensures forall i :: 0 <= i < |r| ==> !('A' <= r[i] <= 'Z')
  {
    if s == [] then [] else [LowerChar(s[0])] + ToLower(s[1..])
  }

  /** Lower-casing twice is lower-casing once. */
  lemma {:induction false} ToLowerIdempotent(s: string)
    ensures ToLower(ToLower(s)) == ToLower(s)
  {
    if s != [] {
      ToLowerIdempotent(s[1..]);
      assert ToLower(s)[1..] == ToLower(s[1..]);
    }
  }

  // ---------------------------------------------------------------------------
  // Host detection: `window.location.hostname.includes('netflix.com')`
  // ---------------------------------------------------------------------------

  const NetflixDomain: string := "netflix.com"

  /** `pat` occurs in `s` starting at offset `i`. */
  predicate OccursAt(s: string, pat: string, i: int)
  {
    0 <= i && i + |pat| <= |s| && s[i..i + |pat|] == pat
  }

  /** `String.prototype.includes`: does `pat` occur in `s` at some offset? */
  function Includes(s: string, pat: string): (r: bool)
    ensures r <==> exists i :: OccursAt(s, pat, i)
    decreases |s|
  {
    if |s| < |pat| then false
    else if s[..|pat|] == pat then assert OccursAt(s, pat, 0); true
    else
      var r' := Includes(s[1..], pat);
      assert forall i :: OccursAt(s[1..], pat, i) <==> OccursAt(s, pat, i + 1) by {
        forall i ensures OccursAt(s[1..], pat, i) <==> OccursAt(s, pat, i + 1) {
          if 0 <= i && i + |pat| <= |s[1..]| {
            assert s[1..][i..i + |pat|] == s[i + 1..i + 1 + |pat|];
          }
        }
      }
      assert forall i :: OccursAt(s, pat, i) ==> i != 0 && OccursAt(s[1..], pat, i - 1);
      r'
  }

  /** The site mode is derived, per keystroke, from the host name. */
  datatype SiteMode = Generic | NetflixRemap

  function ModeOf(host: string): (m: SiteMode)
    ensures m == NetflixRemap <==> exists i :: OccursAt(host, NetflixDomain, i)
  {
    if Includes(host, NetflixDomain) then NetflixRemap else Generic
  }

  // ---------------------------------------------------------------------------
  // The remap table (content.js:149-168) and the generic action table
  // (content.js:178-219), each as the source's switch and as a static map.
  // ---------------------------------------------------------------------------

  /**
   * The switch of the Netflix branch: the key to synthesize for a lowered key,
   * or `None` for the `default` case.
   */
  function RemapKey(lowered: string): (r: Option<string>)
    ensures r.Some? ==> |lowered| == 1
    ensures r.Some? ==> r.value in {" ", "ArrowLeft", "ArrowRight", "m", "f"}
  {
    match lowered
    case "s" | "k" => Some(" ")
    case "a" | "j" => Some("ArrowLeft")
    case "d" | "l" => Some("ArrowRight")
    case "m" => Some("m")
    case "f" => Some("f")
    case _ => None
  }

  /** What the generic switch does for one lowered key. */
  datatype Action =
    | TogglePlay
    | SeekBy(seconds: int)
    | ToggleMute
    | ToggleFullscreen
    | VolumeUp
    | VolumeDown
    | SeekToTenths(digit: nat)

  /** The switch of the generic branch, or `None` for the `default` case. */
  function ActionFor(lowered: string): (r: Option<Action>)
    ensures r.Some? && r.value.SeekBy? ==> r.value.seconds in {-10, -5, 5, 10}
    ensures r.Some? && r.value.SeekToTenths? ==> r.value.digit < 10
    ensures r.Some? && |lowered| != 1 ==> r.value in {VolumeUp, VolumeDown}
  {
    match lowered
    case "s" | "k" => Some(TogglePlay)
    case "a" => Some(SeekBy(-5))
    case "d" => Some(SeekBy(5))
    case "j" => Some(SeekBy(-10))
    case "l" => Some(SeekBy(10))
    case "m" => Some(ToggleMute)
    case "f" => Some(ToggleFullscreen)
    case "arrowup" => Some(VolumeUp)
    case "arrowdown" => Some(VolumeDown)
    case "0" => Some(SeekToTenths(0))
    case "1" => Some(SeekToTenths(1))
    case "2" => Some(SeekToTenths(2))
    case "3" => Some(SeekToTenths(3))
    case "4" => Some(SeekToTenths(4))
    case "5" => Some(SeekToTenths(5))
    case "6" => Some(SeekToTenths(6))
    case "7" => Some(SeekToTenths(7))
    case "8" => Some(SeekToTenths(8))
    case "9" => Some(SeekToTenths(9))
    case _ => None
  }

  /** The remap binding table as data. */
  const RemapTable: map<string, string> :=
    map["s" := " ", "k" := " ", "a" := "ArrowLeft", "j" := "ArrowLeft",
        "d" := "ArrowRight", "l" := "ArrowRight", "m" := "m", "f" := "f"]

  /** The generic binding table as data. */
  const GenericTable: map<string, Action> :=
    map["s" := TogglePlay, "k" := TogglePlay,
        "a" := SeekBy(-5), "d" := SeekBy(5), "j" := SeekBy(-10), "l" := SeekBy(10),
        "m" := ToggleMute, "f" := ToggleFullscreen,
        "arrowup" := VolumeUp, "arrowdown" := VolumeDown,
        "0" := SeekToTenths(0), "1" := SeekToTenths(1), "2" := SeekToTenths(2),
        "3" := SeekToTenths(3), "4" := SeekToTenths(4), "5" := SeekToTenths(5),
        "6" := SeekToTenths(6), "7" := SeekToTenths(7), "8" := SeekToTenths(8),
        "9" := SeekToTenths(9)]

  /** The remap switch binds exactly the keys of the remap table, to the same keys. */
  lemma RemapKeyIsTable(lowered: string)
    ensures RemapKey(lowered).Some? <==> lowered in RemapTable
    ensures lowered in RemapTable ==> RemapKey(lowered) == Some(RemapTable[lowered])
  {
  }

  /** The generic switch binds exactly the keys of the generic table, to the same actions. */
  lemma ActionForIsTable(lowered: string)
    ensures ActionFor(lowered).Some? <==> lowered in GenericTable
    ensures lowered in GenericTable ==> ActionFor(lowered) == Some(GenericTable[lowered])
  {
  }

  /** The key of digit `d` is bound to seeking to `d` tenths. */
  lemma DigitAction(d: nat)
    requires d < 10
    ensures ActionFor([('0' as int + d) as char]) == Some(SeekToTenths(d))
  {
    if d == 0 {} else if d == 1 {} else if d == 2 {} else if d == 3 {} else if d == 4 {}
    else if d == 5 {} else if d == 6 {} else if d == 7 {} else if d == 8 {} else {}
  }

  /** A digit key seeks to its own tenth, and only digit keys seek absolutely. */
  lemma AbsoluteSeekKeys(lowered: string)
    ensures (exists d :: ActionFor(lowered) == Some(SeekToTenths(d))) <==>
            (|lowered| == 1 && '0' <= lowered[0] <= '9')
    ensures forall d :: ActionFor(lowered) == Some(SeekToTenths(d)) ==>
            d < 10 && lowered == [('0' as int + d) as char]
  {
    if |lowered| == 1 && '0' <= lowered[0] <= '9' {
      var d := lowered[0] as int - '0' as int;
      assert lowered == [('0' as int + d) as char];
      assert ActionFor(lowered) == Some(SeekToTenths(d));
    }
  }
}

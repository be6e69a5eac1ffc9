/**
 * The keyboard rules of the speed controller, as pure functions over one
 * video's playback state: which keys are commands, how each command moves the
 * playback rate, and how the mute flag follows the rate.
 */
module Playback {
  import opened Wrappers

  /** Change of the playback rate per speed-up or speed-down keystroke. */
  const Step: real := 0.2
  /** Highest rate a speed-up keystroke produces. */
  const MaxRate: real := 16.0
  /** Lowest rate a speed-down keystroke produces. */
  const MinRate: real := 0.1
  /** Rate the reset keystroke restores. */
  const NormalRate: real := 1.0

  datatype Command = SpeedUp | SpeedDown | Reset

  /** The two properties of a video element the keyboard handler rewrites. */
  datatype PlayState = PlayState(rate: real, muted: bool)

  /** ASCII case folding of one character; every other character is kept. */
  function LowerChar(c: char): char {
    if 'A' <= c <= 'Z' then (c as int - 'A' as int + 'a' as int) as char else c
  }

  function Lower(s: string): string {
    seq(|s|, i requires 0 <= i < |s| => LowerChar(s[i]))
  }

  /** The command bound to a key name, after lower-casing it; None for every other key. */
  function ParseKey(key: string): Option<Command> {
    var k := Lower(key);
    if k == "d" then Some(SpeedUp)
    else if k == "s" then Some(SpeedDown)
    else if k == "r" then Some(Reset)
    else None
  }

  /** Exactly the six key names d, D, s, S, r, R are commands. */
  lemma KeyRecognition(key: string)
    ensures ParseKey(key) == Some(SpeedUp) <==> key == "d" || key == "D"
    ensures ParseKey(key) == Some(SpeedDown) <==> key == "s" || key == "S"
    ensures ParseKey(key) == Some(Reset) <==> key == "r" || key == "R"
    ensures ParseKey(key).None? <==> key !in ["d", "D", "s", "S", "r", "R"]
  {
    var k := Lower(key);
    if |key| == 1 {
      assert k == [LowerChar(key[0])];
      assert key == [key[0]];
    } else {
      assert |k| != 1;
    }
  }

  /** The new rate a command gives a video whose rate is `rate`. */
  function Apply(cmd: Command, rate: real): (r: real)
    ensures cmd == SpeedUp ==> r <= MaxRate && r <= rate + Step
    ensures cmd == SpeedUp && rate + Step <= MaxRate ==> r == rate + Step
    ensures cmd == SpeedUp ==> r == rate + Step || r == MaxRate
    ensures cmd == SpeedDown ==> r >= MinRate && r >= rate - Step
    ensures cmd == SpeedDown && rate - Step >= MinRate ==> r == rate - Step
    ensures cmd == SpeedDown ==> r == rate - Step || r == MinRate
    ensures cmd == Reset ==> r == NormalRate
  {
    match cmd
    case SpeedUp => if rate + Step < MaxRate then rate + Step else MaxRate
    case SpeedDown => if rate - Step > MinRate then rate - Step else MinRate
    case Reset => NormalRate
  }

  /**
   * What one keystroke does to one video: an unrecognised key changes nothing;
   * a command sets the new rate and then mutes exactly when that rate reaches
   * the threshold, whatever the video's mute state was.
   */
  function Respond(cmd: Option<Command>, s: PlayState, threshold: real): (t: PlayState)
    ensures cmd.None? ==> t == s
    ensures cmd.Some? ==> t.rate == Apply(cmd.value, s.rate)
    ensures cmd.Some? ==> (t.muted <==> t.rate >= threshold)
    ensures cmd == Some(SpeedUp) ==> t.rate <= MaxRate
    ensures cmd == Some(SpeedDown) ==> t.rate >= MinRate
    ensures cmd == Some(Reset) ==> t == PlayState(NormalRate, NormalRate >= threshold)
  {
    match cmd
    case None => s
    case Some(c) =>
      var rate := Apply(c, s.rate);
      PlayState(rate, rate >= threshold)
  }

  /** The state of one video after a sequence of keystrokes under a fixed threshold. */
  function RunKeys(keys: seq<string>, s: PlayState, threshold: real): PlayState
    decreases |keys|
  {
    if keys == [] then s
    else RunKeys(keys[1..], Respond(ParseKey(keys[0]), s, threshold), threshold)
  }

  /**
   * From a rate at most 16 no sequence of keys goes above 16, and from a rate
   * at least 0.1 none goes below 0.1.
   */
  lemma {:induction false} BoundsKept(keys: seq<string>, s: PlayState, threshold: real)
    ensures s.rate <= MaxRate ==> RunKeys(keys, s, threshold).rate <= MaxRate
    ensures s.rate >= MinRate ==> RunKeys(keys, s, threshold).rate >= MinRate
  {
    if keys != [] {
      BoundsKept(keys[1..], Respond(ParseKey(keys[0]), s, threshold), threshold);
    }
  }

  /**
   * The bounds hold only from a rate already inside them: speed-down from a
   * rate above 16 still leaves it above 16.
   */
  lemma SpeedDownAboveCap()
    ensures Apply(SpeedDown, 20.0) == 19.8 && 19.8 > MaxRate
  {
  }

  function Tenth(n: int): real {
    n as real / 10.0
  }

  /** A rate that is a whole number of tenths between 0.1 and 16. */
  ghost predicate OnGrid(rate: real) {
    exists n :: 1 <= n <= 160 && rate == Tenth(n)
  }

  lemma GridInRange(rate: real)
    requires OnGrid(rate)
    ensures MinRate <= rate <= MaxRate
  {
    var n :| 1 <= n <= 160 && rate == Tenth(n);
  }

  /** Every command maps a whole number of tenths in [0.1, 16] to another one. */
  lemma GridClosed(cmd: Command, rate: real)
    requires OnGrid(rate)
    ensures OnGrid(Apply(cmd, rate))
  {
    var n :| 1 <= n <= 160 && rate == Tenth(n);
    match cmd
    case SpeedUp =>
      var m := if n + 2 < 160 then n + 2 else 160;
      assert Apply(cmd, rate) == Tenth(m);
    case SpeedDown =>
      var m := if n - 2 > 1 then n - 2 else 1;
      assert Apply(cmd, rate) == Tenth(m);
    case Reset =>
      assert Apply(cmd, rate) == Tenth(10);
  }

  /**
   * From a rate that is a whole number of tenths between 0.1 and 16 (such as
   * the normal rate 1.0), every sequence of keystrokes leads to such a rate.
   */
  lemma {:induction false} ReachableRates(keys: seq<string>, s: PlayState, threshold: real)
    requires OnGrid(s.rate)
    ensures OnGrid(RunKeys(keys, s, threshold).rate)
    ensures MinRate <= RunKeys(keys, s, threshold).rate <= MaxRate
  {
    if keys == [] {
      GridInRange(s.rate);
    } else {
      var t := Respond(ParseKey(keys[0]), s, threshold);
      if ParseKey(keys[0]).Some? {
        GridClosed(ParseKey(keys[0]).value, s.rate);
      }
      ReachableRates(keys[1..], t, threshold);
    }
  }

  /** Whether the mute flag agrees with the threshold rule. */
  predicate MuteFollowsRate(s: PlayState, threshold: real) {
    s.muted <==> s.rate >= threshold
  }

  /**
   * Once any command has been pressed, the mute flag agrees with the threshold
   * rule, and later keys keep it so.
   */
  lemma {:induction false} MuteRuleKept(keys: seq<string>, s: PlayState, threshold: real)
    ensures MuteFollowsRate(s, threshold) ==> MuteFollowsRate(RunKeys(keys, s, threshold), threshold)
    ensures (exists i :: 0 <= i < |keys| && ParseKey(keys[i]).Some?) ==>
              MuteFollowsRate(RunKeys(keys, s, threshold), threshold)
  {
    if keys != [] {
      var t := Respond(ParseKey(keys[0]), s, threshold);
      MuteRuleKept(keys[1..], t, threshold);
      if exists i :: 0 <= i < |keys| && ParseKey(keys[i]).Some? {
        var i :| 0 <= i < |keys| && ParseKey(keys[i]).Some?;
        if i > 0 {
          assert ParseKey(keys[1..][i - 1]).Some?;
        }
      }
    }
  }

  /**
   * A user's unmute above the threshold lasts only until the next command: a
   * speed-up from 4.0 under threshold 3.5 mutes again.
   */
  lemma UnmuteOverriddenByNextCommand()
    ensures Respond(ParseKey("d"), PlayState(4.0, false), 3.5) == PlayState(4.2, true)
  {
    KeyRecognition("d");
  }
}

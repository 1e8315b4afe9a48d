/**
 The EE-LoveButton usermod: a pushbutton read through an MCP23008 I2C GPIO
 expander; every LOW-to-HIGH change of the line counts as a press, and when the
 count reaches `pressesToLove` the usermod applies the preset `lovePreset` and
 starts counting again.

 `Usermod` is a snapshot of the usermod's fields and `Step` is one call of
 `loop()` on that snapshot; the class `EELoveButtonUsermod` holds the same
 fields, and each of its methods is tied to the matching function here. The
 host's calls become parameters: whether the strip is updating, the two pin
 reads of one `loop()`, and the outcome of `begin_I2C()`. Applying a preset is
 recorded as an event in a ghost log.
 */
module EELoveButton {
  import opened WledJson

  /** Logic levels of the button line (`digitalRead` yields 0 or 1). */
  const LOW := false
  const HIGH := true

  /** What the usermod writes into the settings objects and reads back. */
  const SectionName := "EE-LoveButton"
  const PressesKey := "Number of button presses to trigger love"
  const PresetKey := "Love preset number"
  /** The default of the two settings, both at declaration and when a setting is missing. */
  const DefaultSetting: uint16 := 10

  /** The greatest value `pressCount` can hold once it has left `loop()`. */
  const MaxCount := 0xFFFE

  datatype Usermod = Usermod(
    mcpConnected: bool,
    buttonState: bool,
    pressCount: int,
    pressesToLove: uint16,
    lovePreset: uint16)

  /** The usermod as it is constructed, before `readFromConfig()` and `setup()`. */
  const Boot := Usermod(false, HIGH, 0, DefaultSetting, DefaultSetting)

  /** What the host supplies to one `loop()` call: `strip.isUpdating()` and the
      two `mcp.digitalRead(0)` results, in the order they are read. The second
      read only happens when the first differs from `buttonState`. */
  datatype Poll = Poll(stripUpdating: bool, firstRead: bool, secondRead: bool)

  /** C++ `byte`, the type of the preset index WLED's `applyPreset` takes. */
  type byte = x: int | 0 <= x < 0x100

  /** The preset index `applyPreset(lovePreset)` receives: passing the 16-bit
      setting as a `byte` keeps its low 8 bits. */
  function PresetIndex(preset: uint16): (b: byte)
    ensures preset < 0x100 ==> b == preset
    ensures (preset - b) % 0x100 == 0
  {
    preset % 0x100
  }

  /** The usermod after some polls, and the preset indices applied meanwhile, in order. */
  datatype Outcome = Outcome(after: Usermod, presets: seq<byte>)

  /** `pressCount` (a C++ `int`) stays far inside 32-bit range. */
  predicate CountFits(m: Usermod) {
    0 <= m.pressCount <= MaxCount
  }

  /** The counter has not reached the threshold (with threshold 0, it is 0). */
  predicate CountBelowThreshold(m: Usermod) {
    0 <= m.pressCount && (m.pressCount == 0 || m.pressCount < m.pressesToLove)
  }

  /** The fields `loop()` never writes. */
  predicate SameSettings(m: Usermod, n: Usermod) {
    n.mcpConnected == m.mcpConnected && n.pressesToLove == m.pressesToLove && n.lovePreset == m.lovePreset
  }

  /** One `loop()` call. */
  function Step(m: Usermod, p: Poll): (r: Outcome)
    ensures SameSettings(m, r.after)
    ensures r.presets == [] || r.presets == [PresetIndex(m.lovePreset)]
    ensures CountFits(m) ==> CountFits(r.after)
  {
    if p.stripUpdating || !m.mcpConnected then Outcome(m, [])
    else if m.buttonState == p.firstRead then Outcome(m, [])
    else if p.secondRead != HIGH then Outcome(m.(buttonState := p.secondRead), [])
    else
      var count := m.pressCount + 1;
      if count >= m.pressesToLove then Outcome(m.(buttonState := p.secondRead, pressCount := 0), [PresetIndex(m.lovePreset)])
      else Outcome(m.(buttonState := p.secondRead, pressCount := count), [])
  }

  /** Successive `loop()` calls. */
  function Run(m: Usermod, polls: seq<Poll>): (r: Outcome)
    ensures SameSettings(m, r.after)
    ensures |r.presets| <= |polls|
    ensures forall i :: 0 <= i < |r.presets| ==> r.presets[i] == PresetIndex(m.lovePreset)
    ensures CountFits(m) ==> CountFits(r.after)
    decreases |polls|
  {
    if polls == [] then Outcome(m, [])
    else
      var first := Step(m, polls[0]);
      var rest := Run(first.after, polls[1..]);
      Outcome(rest.after, first.presets + rest.presets)
  }

  // ---------------------------------------------------------------------------
  // One call of loop()

  /** While the strip is updating, or when the expander did not answer at
      setup, `loop()` returns at once. */
  lemma StepGuard(m: Usermod, p: Poll)
    requires p.stripUpdating || !m.mcpConnected
    ensures Step(m, p) == Outcome(m, [])
  {
  }

  /** When the first read equals the stored level, nothing changes, whatever
      a second read would have returned. */
  lemma StepNoChange(m: Usermod, p: Poll)
    requires p.firstRead == m.buttonState
    ensures Step(m, p) == Outcome(m, [])
  {
  }

  /** A HIGH-to-LOW change (a release) stores LOW and counts nothing. */
  lemma StepRelease(m: Usermod, p: Poll)
    requires !p.stripUpdating && m.mcpConnected
    requires m.buttonState == HIGH && p.firstRead == LOW && p.secondRead == LOW
    ensures Step(m, p) == Outcome(m.(buttonState := LOW), [])
  {
  }

  /** A LOW-to-HIGH change (a press) below the threshold adds exactly one to
      the counter and applies nothing. */
  lemma StepPressBelowThreshold(m: Usermod, p: Poll)
    requires !p.stripUpdating && m.mcpConnected
    requires m.buttonState == LOW && p.firstRead == HIGH && p.secondRead == HIGH
    requires m.pressCount + 1 < m.pressesToLove
    ensures Step(m, p) == Outcome(m.(buttonState := HIGH, pressCount := m.pressCount + 1), [])
  {
  }

  /** A press that brings the counter to the threshold applies `lovePreset` (as a byte)
      exactly once and resets the counter. */
  lemma StepPressAtThreshold(m: Usermod, p: Poll)
    requires !p.stripUpdating && m.mcpConnected
    requires m.buttonState == LOW && p.firstRead == HIGH && p.secondRead == HIGH
    requires m.pressCount + 1 >= m.pressesToLove
    ensures Step(m, p) == Outcome(m.(buttonState := HIGH, pressCount := 0), [PresetIndex(m.lovePreset)])
  {
  }

  /** Because the pin is read twice, a bounce between the two reads (stored
      HIGH, first read LOW, second read HIGH) is counted as a press although the
      stored level stays HIGH and no LOW was ever stored. */
  lemma StepBounceCountsPress(m: Usermod, p: Poll)
    requires !p.stripUpdating && m.mcpConnected
    requires m.buttonState == HIGH && p.firstRead == LOW && p.secondRead == HIGH
    ensures Step(m, p).after.buttonState == HIGH
    ensures Step(m, p).presets == [] ==> Step(m, p).after.pressCount == m.pressCount + 1
    ensures Step(m, p).presets != [] ==> Step(m, p).after.pressCount == 0
  {
  }

  /** A poll that stores a level changes `buttonState` to its second read. */
  lemma StepStoresSecondRead(m: Usermod, p: Poll)
    requires !p.stripUpdating && m.mcpConnected && p.firstRead != m.buttonState
    ensures Step(m, p).after.buttonState == p.secondRead
  {
  }

  /** One call keeps the counter below an unchanged threshold. */
  lemma StepKeepsCountBelowThreshold(m: Usermod, p: Poll)
    requires CountBelowThreshold(m)
    ensures CountBelowThreshold(Step(m, p).after)
  {
  }

  // ---------------------------------------------------------------------------
  // Sequences of loop() calls

  lemma {:induction false} RunAppend(m: Usermod, xs: seq<Poll>, ys: seq<Poll>)
    ensures var left := Run(m, xs); var right := Run(left.after, ys);
      Run(m, xs + ys) == Outcome(right.after, left.presets + right.presets)
    decreases |xs|
  {
    if xs == [] {
      assert xs + ys == ys;
    } else {
      assert (xs + ys)[0] == xs[0];
      assert (xs + ys)[1..] == xs[1..] + ys;
      RunAppend(Step(m, xs[0]).after, xs[1..], ys);
    }
  }

  /** Starting below the threshold, the counter stays below it over any polls
      for as long as the threshold is unchanged. */
  lemma {:induction false} RunKeepsCountBelowThreshold(m: Usermod, polls: seq<Poll>)
    requires CountBelowThreshold(m)
    ensures CountBelowThreshold(Run(m, polls).after)
    decreases |polls|
  {
    if polls != [] {
      StepKeepsCountBelowThreshold(m, polls[0]);
      RunKeepsCountBelowThreshold(Step(m, polls[0]).after, polls[1..]);
    }
  }

  /** Without a connected expander no poll changes anything. */
  lemma {:induction false} RunDisconnected(m: Usermod, polls: seq<Poll>)
    requires !m.mcpConnected
    ensures Run(m, polls) == Outcome(m, [])
    decreases |polls|
  {
    if polls != [] {
      RunDisconnected(m, polls[1..]);
    }
  }

  /** Polls whose first read is always the stored level change nothing:
      a steady line is no press, however often it is sampled. */
  lemma {:induction false} RunSteady(m: Usermod, polls: seq<Poll>)
    requires forall i :: 0 <= i < |polls| ==> polls[i].firstRead == m.buttonState
    ensures Run(m, polls) == Outcome(m, [])
    decreases |polls|
  {
    if polls != [] {
      RunSteady(m, polls[1..]);
    }
  }

  // Counting presses against an independent definition of a press.

  /** Each poll that reads the pin reads the same level twice. */
  predicate CleanReads(polls: seq<Poll>) {
    forall i :: 0 <= i < |polls| && !polls[i].stripUpdating ==> polls[i].firstRead == polls[i].secondRead
  }

  /** The levels actually sampled: one for every poll made while the strip is not updating. */
  function Sampled(polls: seq<Poll>): (levels: seq<bool>)
    decreases |polls|
  {
    if polls == [] then []
    else (if polls[0].stripUpdating then [] else [polls[0].firstRead]) + Sampled(polls[1..])
  }

  /** The number of LOW-to-HIGH changes in `levels`, the line having been at `prev` before. */
  function RisingEdges(prev: bool, levels: seq<bool>): (n: nat)
    decreases |levels|
  {
    if levels == [] then 0
    else (if prev == LOW && levels[0] == HIGH then 1 else 0) + RisingEdges(levels[0], levels[1..])
  }

  /** The last level of `levels`, or `prev` when there is none. */
  function LastLevel(prev: bool, levels: seq<bool>): (last: bool) {
    if levels == [] then prev else levels[|levels| - 1]
  }

  /** The number of presses that applies the preset: a threshold of 0 acts as 1. */
  function Threshold(m: Usermod): (t: nat) {
    if m.pressesToLove == 0 then 1 else m.pressesToLove
  }

  lemma LastLevelCons(prev: bool, levels: seq<bool>)
    requires levels != []
    ensures LastLevel(prev, levels) == LastLevel(levels[0], levels[1..])
  {
  }

  /** One call, in the terms of RunCountsPresses. */
  lemma CountStep(m: Usermod, p: Poll, k: nat)
    requires m.mcpConnected && CountBelowThreshold(m)
    requires !p.stripUpdating ==> p.firstRead == p.secondRead
    ensures var r := Step(m, p);
      && k * Threshold(m) + m.pressCount + RisingEdges(m.buttonState, Sampled([p]))
         == (|r.presets| + k) * Threshold(m) + r.after.pressCount
      && r.after.buttonState == LastLevel(m.buttonState, Sampled([p]))
  {
  }

  lemma SampledCons(polls: seq<Poll>)
    requires polls != []
    ensures Sampled(polls) == Sampled([polls[0]]) + Sampled(polls[1..])
    ensures CleanReads(polls) ==> CleanReads(polls[1..])
  {
  }

  /** Every press is counted once: over polls that read each level cleanly,
      the presses counted before plus the LOW-to-HIGH changes among the sampled
      levels equal the threshold times the presets applied plus what is left on
      the counter; the stored level is the last level sampled. */
  lemma {:induction false} RunCountsPresses(m: Usermod, polls: seq<Poll>)
    requires m.mcpConnected && CountBelowThreshold(m) && CleanReads(polls)
    ensures var r := Run(m, polls);
      && m.pressCount + RisingEdges(m.buttonState, Sampled(polls)) == |r.presets| * Threshold(m) + r.after.pressCount
      && CountBelowThreshold(r.after)
      && r.after.buttonState == LastLevel(m.buttonState, Sampled(polls))
    decreases |polls|
  {
    if polls != [] {
      var p, tail := polls[0], polls[1..];
      var first := Step(m, p);
      var rest := Run(first.after, tail);
      assert Run(m, polls) == Outcome(rest.after, first.presets + rest.presets);
      SampledCons(polls);
      StepKeepsCountBelowThreshold(m, p);
      RunCountsPresses(first.after, tail);
      CountStep(m, p, |rest.presets|);
      var head := Sampled([p]);
      RisingEdgesAppend(m.buttonState, head, Sampled(tail));
      LastLevelAppend(m.buttonState, head, Sampled(tail));
      assert |first.presets + rest.presets| == |first.presets| + |rest.presets|;
    }
  }

  lemma {:induction false} RisingEdgesAppend(prev: bool, xs: seq<bool>, ys: seq<bool>)
    ensures RisingEdges(prev, xs + ys) == RisingEdges(prev, xs) + RisingEdges(LastLevel(prev, xs), ys)
    decreases |xs|
  {
    if xs == [] {
      assert xs + ys == ys;
    } else {
      assert (xs + ys)[0] == xs[0];
      assert (xs + ys)[1..] == xs[1..] + ys;
      RisingEdgesAppend(xs[0], xs[1..], ys);
      LastLevelCons(prev, xs);
    }
  }

  lemma LastLevelAppend(prev: bool, xs: seq<bool>, ys: seq<bool>)
    ensures LastLevel(prev, xs + ys) == LastLevel(LastLevel(prev, xs), ys)
  {
  }

  // Trigger determinism.

  lemma RunOne(m: Usermod, a: Poll)
    ensures Run(m, [a]) == Step(m, a)
  {
  }

  lemma RunTwo(m: Usermod, a: Poll, b: Poll)
    ensures var s := Step(m, a); var t := Step(s.after, b);
      Run(m, [a, b]) == Outcome(t.after, s.presets + t.presets)
  {
    assert [a, b][1..] == [b];
    RunOne(Step(m, a).after, b);
  }

  /** `n` presses and releases as clean polls: LOW then HIGH, `n` times. */
  function Presses(n: nat): (polls: seq<Poll>)
    ensures |polls| == 2 * n
  {
    if n == 0 then [] else [Poll(false, LOW, LOW), Poll(false, HIGH, HIGH)] + Presses(n - 1)
  }

  /** The usermod connected and at rest on HIGH with `count` presses counted. */
  function Resting(m: Usermod, count: int): (r: Usermod) {
    m.(mcpConnected := true, buttonState := HIGH, pressCount := count)
  }

  lemma {:induction false} PressesBelowThreshold(m: Usermod, count: nat, n: nat)
    requires count + n < m.pressesToLove
    ensures Run(Resting(m, count), Presses(n)) == Outcome(Resting(m, count + n), [])
    decreases n
  {
    if n > 0 {
      var pair := [Poll(false, LOW, LOW), Poll(false, HIGH, HIGH)];
      RunAppend(Resting(m, count), pair, Presses(n - 1));
      RunTwo(Resting(m, count), pair[0], pair[1]);
      PressesBelowThreshold(m, count + 1, n - 1);
    }
  }

  /** From the booted state with threshold `n >= 1` on a connected expander,
      `n` presses apply `lovePreset` (as a byte) exactly once, at the last HIGH, and leave
      the counter at 0. */
  lemma TriggerDeterminism(n: nat, preset: uint16)
    requires 1 <= n < 0x1_0000
    ensures var m := Boot.(mcpConnected := true, pressesToLove := n, lovePreset := preset);
      var polls := Presses(n);
      && Run(m, polls[..|polls| - 1]).presets == []
      && Run(m, polls) == Outcome(m, [PresetIndex(preset)])
  {
    var m := Boot.(mcpConnected := true, pressesToLove := n, lovePreset := preset);
    assert m == Resting(m, 0);
    var pair := [Poll(false, LOW, LOW), Poll(false, HIGH, HIGH)];
    assert Presses(n) == Presses(n - 1) + pair by { PressesSnoc(n); }
    var polls := Presses(n);
    assert polls[..|polls| - 1] == Presses(n - 1) + [pair[0]];
    PressesBelowThreshold(m, 0, n - 1);
    RunAppend(m, Presses(n - 1), [pair[0]]);
    RunAppend(m, Presses(n - 1), pair);
    var last := Resting(m, n - 1);
    RunOne(last, pair[0]);
    RunTwo(last, pair[0], pair[1]);
  }

  lemma {:induction false} PressesSnoc(n: nat)
    requires n >= 1
    ensures Presses(n) == Presses(n - 1) + [Poll(false, LOW, LOW), Poll(false, HIGH, HIGH)]
    decreases n
  {
    if n > 1 {
      PressesSnoc(n - 1);
    }
  }

  // ---------------------------------------------------------------------------
  // Configuration

  /** What `readFromConfig()` leaves in the two settings and returns. */
  datatype ConfigRead = ConfigRead(pressesToLove: uint16, lovePreset: uint16, complete: bool)

  /** The usermod's section holds a value (not null) for `key`. */
  predicate Stored(sections: map<string, Section>, key: string) {
    SectionName in sections && key in sections[SectionName] && sections[SectionName][key].Some?
  }

  /** `readFromConfig()` on a root object: each setting is its stored value,
      or 10 when the section or the value is missing or null; the read reports
      complete only when the section is there. */
  function ReadConfig(sections: map<string, Section>): (r: ConfigRead)
    ensures r.pressesToLove == if Stored(sections, PressesKey) then sections[SectionName][PressesKey].value else DefaultSetting
    ensures r.lovePreset == if Stored(sections, PresetKey) then sections[SectionName][PresetKey].value else DefaultSetting
    ensures r.complete ==> SectionName in sections
  {
    var top := SectionOf(sections, SectionName);
    var presses := GetJsonValue(Member(top, PressesKey), DefaultSetting);
    var preset := GetJsonValue(Member(top, PresetKey), DefaultSetting);
    ConfigRead(presses.value, preset.value, top.Some? && presses.found && preset.found)
  }

  /** `addToConfig()` on a root object: the usermod's section is replaced by a
      fresh object holding the two settings; every other section is kept. */
  function WriteConfig(sections: map<string, Section>, pressesToLove: uint16, lovePreset: uint16)
    : (r: map<string, Section>)
    ensures r.Keys == sections.Keys + {SectionName}
    ensures forall name :: name in sections && name != SectionName ==> r[name] == sections[name]
    ensures r[SectionName].Keys == {PressesKey, PresetKey}
    ensures r[SectionName][PressesKey] == Some(pressesToLove) && r[SectionName][PresetKey] == Some(lovePreset)
  {
    sections[SectionName := map[PressesKey := Some(pressesToLove), PresetKey := Some(lovePreset)]]
  }

  /** Settings written by `addToConfig()` are read back unchanged, and the read reports complete. */
  lemma ConfigRoundTrip(sections: map<string, Section>, pressesToLove: uint16, lovePreset: uint16)
    ensures ReadConfig(WriteConfig(sections, pressesToLove, lovePreset)) == ConfigRead(pressesToLove, lovePreset, true)
  {
  }

  /** Without the usermod's section, both settings take the default and the read is incomplete. */
  lemma ConfigMissingSection(sections: map<string, Section>)
    requires SectionName !in sections
    ensures ReadConfig(sections) == ConfigRead(DefaultSetting, DefaultSetting, false)
  {
  }

  /** A missing or null threshold setting becomes 10 and makes the read
      incomplete; the preset setting is read as usual. */
  lemma ConfigMissingPresses(sections: map<string, Section>)
    requires SectionName in sections
    requires PressesKey !in sections[SectionName] || sections[SectionName][PressesKey] == None
    ensures var r := ReadConfig(sections); var s := sections[SectionName];
      && r.pressesToLove == DefaultSetting && !r.complete
      && r.lovePreset == (if PresetKey in s && s[PresetKey].Some? then s[PresetKey].value else DefaultSetting)
  {
  }

  /** A missing or null preset setting becomes 10 and makes the read
      incomplete; the threshold setting is read as usual. */
  lemma ConfigMissingPreset(sections: map<string, Section>)
    requires SectionName in sections
    requires PresetKey !in sections[SectionName] || sections[SectionName][PresetKey] == None
    ensures var r := ReadConfig(sections); var s := sections[SectionName];
      && r.lovePreset == DefaultSetting && !r.complete
      && r.pressesToLove == (if PressesKey in s && s[PressesKey].Some? then s[PressesKey].value else DefaultSetting)
  {
  }

  /** The read is complete exactly when the section and both settings hold values,
      and then the settings are the stored values. */
  lemma ConfigCompleteIff(sections: map<string, Section>)
    ensures ReadConfig(sections).complete <==>
      && SectionName in sections
      && PressesKey in sections[SectionName] && sections[SectionName][PressesKey].Some?
      && PresetKey in sections[SectionName] && sections[SectionName][PresetKey].Some?
    ensures ReadConfig(sections).complete ==>
      && ReadConfig(sections).pressesToLove == sections[SectionName][PressesKey].value
      && ReadConfig(sections).lovePreset == sections[SectionName][PresetKey].value
  {
  }

  // ---------------------------------------------------------------------------
  // The usermod object

  class EELoveButtonUsermod {
    var mcpConnected: bool
    var buttonState: bool
    var pressCount: int
    var pressesToLove: uint16
    var lovePreset: uint16
    /** The preset indices `loop()` has passed to `applyPreset` so far, in order. */
    ghost var applied: seq<byte>

    function Snapshot(): (m: Usermod)
      reads this
    {
      Usermod(mcpConnected, buttonState, pressCount, pressesToLove, lovePreset)
    }

    ghost predicate Valid()
      reads this
    {
      CountFits(Snapshot())
    }

    constructor ()
      ensures Valid() && Snapshot() == Boot && applied == []
    {
      mcpConnected := false;
      buttonState := HIGH;
      pressCount := 0;
      pressesToLove := DefaultSetting;
      lovePreset := DefaultSetting;
      applied := [];
    }

    /** `setup()`: `begun` is what `begin_I2C()` returned. */
    method Setup(begun: bool)
      modifies this
      ensures mcpConnected == begun
      ensures Snapshot() == old(Snapshot()).(mcpConnected := begun) && applied == old(applied)
    {
      mcpConnected := begun;
    }

    /** `loop()`: `stripUpdating` is `strip.isUpdating()`, and `firstRead`,
        `secondRead` are the two `mcp.digitalRead(0)` results. */
    method Loop(stripUpdating: bool, firstRead: bool, secondRead: bool)
      requires Valid()
      modifies this
      ensures Valid()
      ensures var r := Step(old(Snapshot()), Poll(stripUpdating, firstRead, secondRead));
        Snapshot() == r.after && applied == old(applied) + r.presets
      ensures mcpConnected == old(mcpConnected) && pressesToLove == old(pressesToLove) && lovePreset == old(lovePreset)
    {
      if stripUpdating {
        return;
      }
      if !mcpConnected {
        return;
      }
      if buttonState != firstRead {
        buttonState := secondRead;
        if buttonState == HIGH {
          pressCount := pressCount + 1;
          if pressCount >= pressesToLove {
            applied := applied + [PresetIndex(lovePreset)];
            pressCount := 0;
          }
        }
      }
    }

    /** `addToConfig()`. */
    method AddToConfig(root: ConfigRoot)
      modifies root
      ensures root.sections == WriteConfig(old(root.sections), pressesToLove, lovePreset)
    {
      root.sections := root.sections[SectionName := map[]];
      var top := root.sections[SectionName];
      top := top[PressesKey := Some(pressesToLove)];
      top := top[PresetKey := Some(lovePreset)];
      root.sections := root.sections[SectionName := top];
    }

    /** `readFromConfig()`. */
    method ReadFromConfig(root: ConfigRoot) returns (configComplete: bool)
      modifies this
      ensures var r := ReadConfig(root.sections);
        pressesToLove == r.pressesToLove && lovePreset == r.lovePreset && configComplete == r.complete
      ensures mcpConnected == old(mcpConnected) && buttonState == old(buttonState)
      ensures pressCount == old(pressCount) && applied == old(applied)
    {
      var top := SectionOf(root.sections, SectionName);
      configComplete := top.Some?;
      var read := GetJsonValue(Member(top, PressesKey), DefaultSetting);
      pressesToLove := read.value;
      configComplete := configComplete && read.found;
      read := GetJsonValue(Member(top, PresetKey), DefaultSetting);
      lovePreset := read.value;
      configComplete := configComplete && read.found;
    }
  }

  /** Saving the settings and loading them back on the same root restores them
      and reports a complete read; the counter and stored level are untouched. */
  method SaveThenLoad(u: EELoveButtonUsermod, root: ConfigRoot) returns (complete: bool)
    modifies u, root
    ensures complete
    ensures u.Snapshot() == old(u.Snapshot()) && u.applied == old(u.applied)
  {
    u.AddToConfig(root);
    ConfigRoundTrip(old(root.sections), old(u.pressesToLove), old(u.lovePreset));
    complete := u.ReadFromConfig(root);
  }
}

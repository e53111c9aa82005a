/** The scan-configuration wizard (components/Settings.tsx): the user picks a day, a
    session and a gate in three steps, the choice is stored under one key as the string
    `day{d}_{session}_{gate}`, and a summary step shows it. On mount the stored string is
    read back, and the day and session are recovered from it. Storage itself is not
    modelled: what `getItem` returns, and whether `getItem` or `setItem` throws, are inputs. */
module Settings {
  import opened Wrappers
  import opened Strings

  // The steps of the wizard, in order.
  const DAY := 0
  const SESSION := 1
  const GATE := 2
  const SUMMARY := 3

  // The options offered on each step.
  const Days: seq<int> := [1, 2, 3, 4, 5]
  const Sessions: seq<string> := ["fn", "an"]
  const Gates: seq<string> := ["in", "out"]

  /** A value that may also be JavaScript's `null` or `undefined`. */
  datatype Field<+T> = Null | Undefined | Value(v: T)

  /** The three selections; each starts as `null`. */
  datatype Selections = Selections(day: Field<JsNumber>, session: Field<string>, gate: Field<string>)

  /** `handleSelection(key, value)`: the key named and the value chosen. */
  datatype Choice = DayChoice(day: int) | SessionChoice(session: string) | GateChoice(gate: string)

  /** The selections with only the named key set to the chosen value. */
  function Select(sel: Selections, choice: Choice): (r: Selections)
    ensures choice.DayChoice? ==> r.day == Value(Int(choice.day)) && r.session == sel.session && r.gate == sel.gate
    ensures choice.SessionChoice? ==> r.session == Value(choice.session) && r.day == sel.day && r.gate == sel.gate
    ensures choice.GateChoice? ==> r.gate == Value(choice.gate) && r.day == sel.day && r.session == sel.session
  {
    match choice
    case DayChoice(d) => sel.(day := Value(Int(d)))
    case SessionChoice(s) => sel.(session := Value(s))
    case GateChoice(g) => sel.(gate := Value(g))
  }

  /** How a template literal writes a field. */
  function ShowNumber(f: Field<JsNumber>): (r: string)
    ensures '_' !in r
  {
    match f
    case Null => "null"
    case Undefined => "undefined"
    case Value(n) => NumberToString(n)
  }

  function ShowText(f: Field<string>): (r: string) {
    match f
    case Null => "null"
    case Undefined => "undefined"
    case Value(s) => s
  }

  /** The string `saveSettings` stores: `day${day}_${session}_${gate}`. */
  function ConfigString(sel: Selections): (r: string)
    ensures |r| >= 3 && r[..3] == "day"
    ensures Split(r, '_')[0] == "day" + ShowNumber(sel.day)
    ensures '_' !in ShowText(sel.session) ==> |Split(r, '_')| >= 2 && Split(r, '_')[1] == ShowText(sel.session)
    ensures '_' !in ShowText(sel.session) && '_' !in ShowText(sel.gate) ==>
      Split(r, '_') == ["day" + ShowNumber(sel.day), ShowText(sel.session), ShowText(sel.gate)]
  {
    var head := "day" + ShowNumber(sel.day);
    var session := ShowText(sel.session);
    var gate := ShowText(sel.gate);
    var r := head + "_" + (session + "_" + gate);
    SplitThree(head, session, gate, '_');
    if '_' !in gate then SplitWhole(gate, '_'); r else r
  }

  /** What `loadStoredSettings` recovers from a stored string: the day is `parseInt` of the
      first `_`-separated piece with its first "day" removed, the session is the second
      piece, or `undefined` when there is no `_`. The gate is not read back. */
  function ParseConfig(value: string): (r: (JsNumber, Field<string>))
    ensures r.1.Undefined? <==> '_' !in value
    ensures r.1.Value? ==> '_' !in r.1.v
  {
    var parts := Split(value, '_');
    (ParseInt(RemoveFirst(parts[0], "day")), if |parts| >= 2 then Value(parts[1]) else Undefined)
  }

  /** Reading back a saved configuration gives the day and session that were saved,
      whatever the gate, as long as the session holds no `_`. */
  lemma ConfigRoundTrip(sel: Selections)
    requires sel.day.Value? && sel.session.Value? && '_' !in sel.session.v
    ensures ParseConfig(ConfigString(sel)) == (sel.day.v, sel.session)
  {
    var n := NumberToString(sel.day.v);
    assert OccursAt("day", "day" + n, 0);
    assert RemoveFirst("day" + n, "day") == n;
    ParseIntOfNumberToString(sel.day.v);
  }

  /** In particular for every day, session and gate the wizard offers. */
  lemma OfferedConfigRoundTrip(d: int, s: string, g: string)
    requires d in Days && s in Sessions && g in Gates
    ensures ParseConfig(ConfigString(Selections(Value(Int(d)), Value(s), Value(g)))) == (Int(d), Value(s))
  {
    ConfigRoundTrip(Selections(Value(Int(d)), Value(s), Value(g)));
  }

  /** On the gate tap the code encodes the selections of the render the tap happened in,
      from before the tap, so on the first pass through the wizard the stored gate is
      `null`, not the gate just chosen. The model's `HandleSelection` encodes the selections
      after the tap, which is what the summary shows. */
  lemma StaleGateSaved(d: int, s: string, g: string)
    requires d in Days && s in Sessions && g in Gates
    ensures var before := Selections(Value(Int(d)), Value(s), Null);
      && Split(ConfigString(before), '_')[2] == "null"
      && Split(ConfigString(Select(before, GateChoice(g))), '_')[2] == g
      && ConfigString(before) != ConfigString(Select(before, GateChoice(g)))
  {
  }

  /** The progress dots: one per step before the summary, lit once that step is reached. */
  function ProgressDots(currentStep: int): (dots: seq<bool>)
    ensures |dots| == SUMMARY
    ensures forall s :: DAY <= s < SUMMARY ==> (dots[s] <==> currentStep >= s)
  {
    seq(SUMMARY, s requires 0 <= s < SUMMARY => currentStep >= s)
  }

  function CountLit(dots: seq<bool>): (r: nat)
    ensures r <= |dots|
  {
    if dots == [] then 0 else (if dots[0] then 1 else 0) + CountLit(dots[1..])
  }

  /** On every step the lit dots are the steps reached so far: one on the first step, and
      all three on the summary. */
  lemma LitDots(currentStep: int)
    requires DAY <= currentStep <= SUMMARY
    ensures CountLit(ProgressDots(currentStep)) == if currentStep == SUMMARY then 3 else currentStep + 1
  {
    var dots := ProgressDots(currentStep);
    assert dots == [true, currentStep >= SESSION, currentStep >= GATE];
    assert CountLit(dots[2..]) == if currentStep >= GATE then 1 else 0 by {
      assert dots[2..][1..] == [];
    }
    assert dots[1..][1..] == dots[2..];
  }

  class SettingsScreen {
    var currentStep: int
    var selections: Selections
    var loading: bool
    var saving: bool
    var storedValue: string

    /** The step is always one of the four. */
    ghost predicate Valid()
      reads this
    {
      DAY <= currentStep <= SUMMARY
    }

    constructor ()
      ensures Valid() && currentStep == DAY
      ensures selections == Selections(Null, Null, Null)
      ensures loading && !saving && storedValue == ""
    {
      currentStep := DAY;
      selections := Selections(Null, Null, Null);
      loading := true;
      saving := false;
      storedValue := "";
    }

    /** `loadStoredSettings`: `current` is what `getItem` returned, `readFails` whether it
        threw. A non-empty stored string restores the day and the session and leaves the
        gate; otherwise nothing changes. Loading ends in every case. */
    method LoadStoredSettings(current: Option<string>, readFails: bool)
      requires Valid()
      modifies this`storedValue, this`selections, this`loading
      ensures Valid() && !loading
      ensures selections.gate == old(selections.gate)
      ensures !readFails && current.Some? && current.value != "" ==>
                var (day, session) := ParseConfig(current.value);
                storedValue == current.value && selections == old(selections).(day := Value(day), session := session)
      ensures readFails || current.None? || current.value == "" ==>
                storedValue == old(storedValue) && selections == old(selections)
    {
      if !readFails && current.Some? && current.value != "" {
        storedValue := current.value;
        var parsed := ParseConfig(current.value);
        selections := selections.(day := Value(parsed.0), session := parsed.1);
      }
      loading := false;
    }

    /** `saveSettings`: `writeFails` is whether `setItem` throws. On success the stored
        string is returned and the wizard moves to the summary; on failure the step stays.
        Saving ends in every case. */
    method SaveSettings(writeFails: bool) returns (written: Option<string>)
      requires Valid()
      modifies this`saving, this`storedValue, this`currentStep
      ensures Valid() && !saving
      ensures !writeFails ==>
                written == Some(ConfigString(selections)) && storedValue == ConfigString(selections)
                && currentStep == SUMMARY
      ensures writeFails ==>
                written == None && storedValue == old(storedValue) && currentStep == old(currentStep)
    {
      saving := true;
      var combined := ConfigString(selections);
      if !writeFails {
        written := Some(combined);
        storedValue := combined;
        currentStep := SUMMARY;
      } else {
        written := None;
      }
      saving := false;
    }

    /** `handleSelection`: the named key is set; below the gate step the wizard advances by
        one step, otherwise the configuration is saved. */
    method HandleSelection(choice: Choice, writeFails: bool) returns (written: Option<string>)
      requires Valid() && !saving
      modifies this`selections, this`currentStep, this`saving, this`storedValue
      ensures Valid() && !saving
      ensures selections == Select(old(selections), choice)
      ensures old(currentStep) < GATE ==>
                currentStep == old(currentStep) + 1 && written == None && storedValue == old(storedValue)
      ensures old(currentStep) >= GATE && !writeFails ==>
                written == Some(ConfigString(selections)) && storedValue == ConfigString(selections)
                && currentStep == SUMMARY
      ensures old(currentStep) >= GATE && writeFails ==>
                written == None && storedValue == old(storedValue) && currentStep == old(currentStep)
    {
      selections := Select(selections, choice);
      if currentStep < GATE {
        currentStep := currentStep + 1;
        written := None;
      } else {
        written := SaveSettings(writeFails);
      }
    }

    /** The Back button, shown on every step but the summary (and disabled on the first):
        one step back, never before the first. */
    method Back()
      requires Valid()
      requires currentStep != SUMMARY
      modifies this`currentStep
      ensures Valid()
      ensures currentStep == if old(currentStep) == DAY then DAY else old(currentStep) - 1
    {
      currentStep := if currentStep - 1 > 0 then currentStep - 1 else 0;
    }

    /** The Edit button on the summary: back to the first step. */
    method Edit()
      requires Valid()
      modifies this`currentStep
      ensures Valid() && currentStep == DAY
    {
      currentStep := DAY;
    }
  }

  /** Walking the wizard through its three choices from the first step stores the string
      that encodes them, and reading that string back gives the day and session chosen. */
  method Walkthrough(screen: SettingsScreen, d: int, s: string, g: string) returns (written: Option<string>)
    requires screen.Valid() && screen.currentStep == DAY && !screen.saving
    requires d in Days && s in Sessions && g in Gates
    modifies screen
    ensures screen.currentStep == SUMMARY
    ensures written.Some? && written.value == ConfigString(Selections(Value(Int(d)), Value(s), Value(g)))
    ensures ParseConfig(written.value) == (Int(d), Value(s))
  {
    written := screen.HandleSelection(DayChoice(d), false);
    assert screen.currentStep == SESSION && screen.selections.day == Value(Int(d));
    written := screen.HandleSelection(SessionChoice(s), false);
    assert screen.currentStep == GATE && screen.selections.session == Value(s);
    written := screen.HandleSelection(GateChoice(g), false);
    assert screen.selections == Selections(Value(Int(d)), Value(s), Value(g));
    OfferedConfigRoundTrip(d, s, g);
  }
}

/**
 * The daemon's configuration record and `load_config`, which reads
 * `KEY = value` lines into it. The file is given as its sequence of lines,
 * or None when it cannot be opened.
 */
module ConfigFile {
  import opened Wrappers
  import opened Text
  import Stoi

  /** The `Config` struct: two feature switches and two numeric tunables. */
  datatype Config = Config(
    enableMonitor: bool,       // push a synthetic battery level
    enableTempComp: bool,      // disable the vendor temperature compensation
    longSleep: int,            // seconds between two level updates
    dischargeThreshold: int)   // discharge polls between two level pushes

  /** The values `Config` holds before any line is read. */
  const Defaults: Config := Config(true, true, 2, 15)

  /** The four keys `load_config` recognises, compared exactly. */
  const MonitorKey: string := "ENABLE_MONITOR"
  const TempCompKey: string := "ENABLE_TEMP_COMP"
  const LongSleepKey: string := "long_sleep"
  const DischargeThresholdKey: string := "discharge_threshold"

  predicate IsKey(key: string) {
    key == MonitorKey || key == TempCompKey || key == LongSleepKey || key == DischargeThresholdKey
  }

  /** What one line of the file says: nothing, or `key = value` (both trimmed). */
  datatype Line = Skip | Assign(key: string, value: string)

  /** A switch is on only for the exact texts "true" and "1". */
  predicate IsOnText(value: string) {
    value == "true" || value == "1"
  }

  /** Trim the line; skip it when empty, a `#` comment, or without `=`; else split at the first `=`. */
  function ParseLine(raw: string): (r: Line)
    ensures r.Assign? ==> '=' !in r.key
    ensures r.Assign? ==> Trim(r.key) == r.key && Trim(r.value) == r.value
  {
    var line := Trim(raw);
    if line == [] || line[0] == '#' then Skip
    else match Find(line, '=')
         case None => Skip
         case Some(pos) =>
           var key := Trim(line[..pos]);
           var value := Trim(line[pos + 1..]);
           assert '=' !in key by { NoCharInTrim(line[..pos], '='); }
           TrimIdempotent(line[..pos]);
           TrimIdempotent(line[pos + 1..]);
           Assign(key, value)
  }

  /** Trimming never brings in a character the string did not hold. */
  lemma NoCharInTrim(s: string, c: char)
    requires c !in s
    ensures c !in Trim(s)
  {
    TrimIsSlice(s);
    var i, j :| 0 <= i <= j <= |s| && Trim(s) == s[i..j] && AllBlank(s[..i]) && AllBlank(s[j..]);
    assert forall k :: 0 <= k < j - i ==> s[i..j][k] == s[i + k];
  }

  /** The key dispatch: each recognised key sets its own field; numbers go through `std::stoi`. */
  function Apply(c: Config, key: string, value: string): (r: Result<Config, Stoi.StoiError>)
    ensures r.Err? ==> key == LongSleepKey || key == DischargeThresholdKey
    ensures r.Ok? ==> forall other :: other != key ==> Lookup(r.value, other) == Lookup(c, other)
  {
    if key == MonitorKey then Ok(c.(enableMonitor := IsOnText(value)))
    else if key == TempCompKey then Ok(c.(enableTempComp := IsOnText(value)))
    else if key == LongSleepKey then
      match Stoi.Parse(value)
      case Ok(n) => Ok(c.(longSleep := n))
      case Err(e) => Err(e)
    else if key == DischargeThresholdKey then
      match Stoi.Parse(value)
      case Ok(n) => Ok(c.(dischargeThreshold := n))
      case Err(e) => Err(e)
    else Ok(c)
  }

  /** The effect of one line of the file on the record; an error is the exception `std::stoi` throws. */
  function Step(c: Config, raw: string): (r: Result<Config, Stoi.StoiError>)
    ensures r.Err? ==> Sets(raw, LongSleepKey) || Sets(raw, DischargeThresholdKey)
    ensures r.Ok? ==> forall key :: !Sets(raw, key) ==> Lookup(r.value, key) == Lookup(c, key)
  {
    match ParseLine(raw)
    case Skip => Ok(c)
    case Assign(key, value) => Apply(c, key, value)
  }

  /** The record after reading `lines` in order, or the first exception. */
  function Fold(c: Config, lines: seq<string>): (r: Result<Config, Stoi.StoiError>)
    ensures r.Err? ==> exists i :: 0 <= i < |lines| && (Sets(lines[i], LongSleepKey) || Sets(lines[i], DischargeThresholdKey))
    decreases |lines|
  {
    if lines == [] then Ok(c)
    else match Step(c, lines[0])
         case Err(e) => Err(e)
         case Ok(c') =>
           var r := Fold(c', lines[1..]);
           assert r.Err? ==> exists i :: 1 <= i < |lines| && (Sets(lines[i], LongSleepKey) || Sets(lines[i], DischargeThresholdKey)) by {
             if r.Err? {
               var i :| 0 <= i < |lines[1..]| && (Sets(lines[1..][i], LongSleepKey) || Sets(lines[1..][i], DischargeThresholdKey));
               assert lines[1..][i] == lines[i + 1];
             }
           }
           r
  }

  /**
   * `load_config`: leaves `init` as it is when the file cannot be opened,
   * otherwise applies its lines one after another.
   */
  method LoadConfig(init: Config, file: Option<seq<string>>) returns (r: Result<Config, Stoi.StoiError>)
    ensures file.None? ==> r == Ok(init)
    ensures file.Some? ==> r == Fold(init, file.value)
  {
    if file.None? {
      return Ok(init);
    }
    var lines := file.value;
    var config := init;
    var i := 0;
    while i < |lines|
      invariant 0 <= i <= |lines|
      invariant Fold(init, lines) == Fold(config, lines[i..])
    {
      assert lines[i..][0] == lines[i] && lines[i..][1..] == lines[i + 1..];
      var next := ReadLine(config, lines[i]);
      if next.Err? {
        return next;
      }
      config := next.value;
      i := i + 1;
    }
    assert lines[i..] == [];
    return Ok(config);
  }

  /** The body of the `while (getline)` loop of `load_config` for one line. */
  method ReadLine(config: Config, raw: string) returns (r: Result<Config, Stoi.StoiError>)
    ensures r == Step(config, raw)
  {
    var line := Trim(raw);
    if line == [] || line[0] == '#' {
      return Ok(config);
    }
    var pos := Find(line, '=');
    if pos.None? {
      return Ok(config);
    }
    var key := Trim(line[..pos.value]);
    var val := Trim(line[pos.value + 1..]);
    assert ParseLine(raw) == Assign(key, val);
    if key == MonitorKey {
      return Ok(config.(enableMonitor := val == "true" || val == "1"));
    } else if key == TempCompKey {
      return Ok(config.(enableTempComp := val == "true" || val == "1"));
    } else if key == LongSleepKey {
      var n := Stoi.Parse(val);
      if n.Err? {
        return Err(n.error);
      }
      return Ok(config.(longSleep := n.value));
    } else if key == DischargeThresholdKey {
      var n := Stoi.Parse(val);
      if n.Err? {
        return Err(n.error);
      }
      return Ok(config.(dischargeThreshold := n.value));
    }
    return Ok(config);
  }

  /** The value one configuration entry stands for. */
  datatype Setting = Flag(on: bool) | Number(n: int)

  /** The field of `c` that `key` names, if it names one. */
  function Lookup(c: Config, key: string): (r: Option<Setting>)
    ensures r.Some? <==> IsKey(key)
  {
    if key == MonitorKey then Some(Flag(c.enableMonitor))
    else if key == TempCompKey then Some(Flag(c.enableTempComp))
    else if key == LongSleepKey then Some(Number(c.longSleep))
    else if key == DischargeThresholdKey then Some(Number(c.dischargeThreshold))
    else None
  }

  /** The setting `key = value` means: a switch for the two flags, a parsed `int` for the others. */
  function Interpret(key: string, value: string): Result<Setting, Stoi.StoiError>
    requires IsKey(key)
  {
    if key == MonitorKey || key == TempCompKey then Ok(Flag(IsOnText(value)))
    else match Stoi.Parse(value)
         case Ok(n) => Ok(Number(n))
         case Err(e) => Err(e)
  }

  /** `line` assigns to `key`. */
  predicate Sets(line: string, key: string) {
    ParseLine(line).Assign? && ParseLine(line).key == key
  }

  /**
   * A line is ignored exactly when, once trimmed, it is empty, a comment, or
   * has no `=`; an ignored line leaves the record as it was.
   */
  lemma IgnoredLine(c: Config, raw: string)
    ensures ParseLine(raw).Skip? <==> (Trim(raw) == [] || Trim(raw)[0] == '#' || '=' !in Trim(raw))
    ensures ParseLine(raw).Skip? ==> Step(c, raw) == Ok(c)
  {
  }

  /**
   * The line is split at its FIRST `=`, so the value may contain more `=`;
   * key and value are trimmed on their own.
   */
  lemma SplitAtFirstEquals(raw: string, key: string, value: string)
    requires Trim(raw) == key + "=" + value
    requires '=' !in key
    requires key == [] || key[0] != '#'
    ensures ParseLine(raw) == Assign(Trim(key), Trim(value))
  {
    var line := Trim(raw);
    assert line[|key|] == '=';
    assert line[..|key|] == key;
    assert line[|key| + 1..] == value;
    assert Find(line, '=') == Some(|key|);
  }

  /**
   * The key dispatch against the field view: an unknown key changes nothing;
   * a known key with a value that interprets sets that field to it and no
   * other; a number `std::stoi` rejects aborts the load.
   */
  lemma ApplyEffect(c: Config, key: string, value: string)
    ensures !IsKey(key) ==> Apply(c, key, value) == Ok(c)
    ensures IsKey(key) && Interpret(key, value).Err? ==>
              Apply(c, key, value) == Err(Interpret(key, value).error)
    ensures IsKey(key) && Interpret(key, value).Ok? ==>
              && Apply(c, key, value).Ok?
              && Lookup(Apply(c, key, value).value, key) == Some(Interpret(key, value).value)
              && forall other :: other != key ==> Lookup(Apply(c, key, value).value, other) == Lookup(c, other)
  {
  }

  /** The two switches: on for "true" or "1", OFF for every other value (never left unchanged). */
  lemma SwitchValue(c: Config, raw: string, value: string)
    requires ParseLine(raw) == Assign(MonitorKey, value) || ParseLine(raw) == Assign(TempCompKey, value)
    ensures Step(c, raw).Ok?
    ensures ParseLine(raw).key == MonitorKey ==>
              Step(c, raw).value == c.(enableMonitor := IsOnText(value))
    ensures ParseLine(raw).key == TempCompKey ==>
              Step(c, raw).value == c.(enableTempComp := IsOnText(value))
  {
  }

  /** Reading `a + b` is reading `a` and then, unless it threw, reading `b`. */
  lemma {:induction false} FoldAppend(c: Config, a: seq<string>, b: seq<string>)
    ensures Fold(c, a + b) == match Fold(c, a) case Err(e) => Err(e) case Ok(c') => Fold(c', b)
    decreases |a|
  {
    if a != [] {
      assert (a + b)[0] == a[0] && (a + b)[1..] == a[1..] + b;
      match Step(c, a[0])
      case Err(e) =>
      case Ok(c') => FoldAppend(c', a[1..], b);
    } else {
      assert a + b == b;
    }
  }

  /** A file of blank lines, comments and lines without `=` yields the starting record. */
  lemma {:induction false} OnlyIgnoredLines(c: Config, lines: seq<string>)
    requires forall i :: 0 <= i < |lines| ==> ParseLine(lines[i]).Skip?
    ensures Fold(c, lines) == Ok(c)
    decreases |lines|
  {
    if lines != [] {
      assert ParseLine(lines[0]).Skip?;
      OnlyIgnoredLines(c, lines[1..]);
    }
  }

  /** A field no line assigns to keeps its starting value. */
  lemma {:induction false} Untouched(c: Config, lines: seq<string>, key: string)
    requires forall i :: 0 <= i < |lines| ==> !Sets(lines[i], key)
    requires Fold(c, lines).Ok?
    ensures Lookup(Fold(c, lines).value, key) == Lookup(c, key)
    decreases |lines|
  {
    if lines != [] {
      assert !Sets(lines[0], key);
      var d := ParseLine(lines[0]);
      if d.Assign? { ApplyEffect(c, d.key, d.value); }
      Untouched(Step(c, lines[0]).value, lines[1..], key);
    }
  }

  /** The last line that assigns to a key decides its field, when the load succeeds. */
  lemma LastAssignmentWins(c: Config, before: seq<string>, raw: string, after: seq<string>, key: string)
    requires IsKey(key)
    requires forall i :: 0 <= i < |after| ==> !Sets(after[i], key)
    ensures Sets(raw, key) && Fold(c, before + [raw] + after).Ok? ==>
              && Interpret(key, ParseLine(raw).value).Ok?
              && Lookup(Fold(c, before + [raw] + after).value, key) == Some(Interpret(key, ParseLine(raw).value).value)
  {
    if Sets(raw, key) && Fold(c, before + [raw] + after).Ok? {
      FoldAppend(c, before + [raw], after);
      FoldAppend(c, before, [raw]);
      var c1 := Fold(c, before).value;
      assert Fold(c1, [raw]) == Step(c1, raw);
      ApplyEffect(c1, key, ParseLine(raw).value);
      Untouched(Step(c1, raw).value, after, key);
    }
  }
}

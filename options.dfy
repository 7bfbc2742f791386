/**
 * The options file reader of the `com.strozor` game: `options.txt` holds one
 * `key:value` line per setting, and `readOptions` copies each recognised value into
 * the settings object. Only `IOException` is caught, so a malformed line stops the
 * read with an exception that escapes to the caller; here that is a `Fault`.
 */
module Options {
  import opened Wrappers
  import opened JavaLang

  /** The settings `readOptions` writes. `scale` stays the text `Float.valueOf` would read. */
  datatype OptionValues = OptionValues(
    langIndex: int, scale: string, maxFps: int, showFps: bool, showLights: bool)

  /** The two exceptions a line can raise: `sub[1]` (or `sub[0]`) out of range, and a bad integer. */
  datatype Fault = IndexOutOfBounds | NumberFormat

  /** The five keys the reader recognises. */
  const Keys: set<string> := {"lang", "guiScale", "maxFPS", "showFPS", "showLights"}

  /** An options line: the key, ':' and the value. */
  function Line(key: string, value: string): string {
    key + ":" + value
  }

  /** The lines written to a fresh `options.txt`. */
  const DefaultLines: seq<string> := [
    Line("lang", "en"), Line("guiScale", "3"), Line("maxFPS", "60"),
    Line("showFPS", "false"), Line("showLights", "true")]

  /** The settings object: one mutable field per option. */
  class Settings {
    var langIndex: int
    var scale: string
    var maxFps: int
    var showFps: bool
    var showLights: bool

    constructor (init: OptionValues)
      ensures Values() == init
    {
      langIndex, scale, maxFps := init.langIndex, init.scale, init.maxFps;
      showFps, showLights := init.showFps, init.showLights;
    }

    function Values(): OptionValues
      reads this
    {
      OptionValues(langIndex, scale, maxFps, showFps, showLights)
    }

    method SetLangIndex(i: int)
      modifies this`langIndex
      ensures langIndex == i
    {
      langIndex := i;
    }

    method SetScale(s: string)
      modifies this`scale
      ensures scale == s
    {
      scale := s;
    }

    method SetMaxFps(n: int)
      modifies this`maxFps
      ensures maxFps == n
    {
      maxFps := n;
    }

    method SetShowFps(b: bool)
      modifies this`showFps
      ensures showFps == b
    {
      showFps := b;
    }

    method SetShowLights(b: bool)
      modifies this`showLights
      ensures showLights == b
    {
      showLights := b;
    }
  }

  /** The language index for a `lang` value: French is 1, English and anything else 0. */
  function LangIndex(value: string): (i: int)
    ensures i == 1 <==> value == "fr"
    ensures i == 0 <==> value != "fr"
  {
    match value
    case "en" => 0
    case "fr" => 1
    case _ => 0
  }

  /** The first piece of the line, if splitting on ':' leaves any. */
  function KeyOf(line: string): Option<string> {
    var sub := Split(line, ':');
    if |sub| == 0 then None else Some(sub[0])
  }

  /**
   * One turn of the read loop: split the line on ':' and store the second piece in
   * the setting the first piece names. Reading `sub[0]` of an empty split, or `sub[1]`
   * for a recognised key without a value, is out of range; a `maxFPS` value that is
   * not a 32-bit integer is a number-format error. Nothing is stored on a fault.
   */
  function ApplyLine(v: OptionValues, line: string): (r: Result<OptionValues, Fault>)
    ensures KeyOf(line).None? ==> r == Err(IndexOutOfBounds)
    ensures KeyOf(line).Some? && KeyOf(line).value !in Keys ==> r == Ok(v)
    ensures r.Err? && r.error == NumberFormat ==> KeyOf(line) == Some("maxFPS")
  {
    var sub := Split(line, ':');
    if |sub| == 0 then Err(IndexOutOfBounds)
    else if sub[0] !in Keys then Ok(v)
    else if |sub| < 2 then Err(IndexOutOfBounds)
    else
      match sub[0]
      case "lang" => Ok(v.(langIndex := LangIndex(sub[1])))
      case "guiScale" => Ok(v.(scale := sub[1]))
      case "maxFPS" =>
        (match ParseInt(sub[1])
         case None => Err(NumberFormat)
         case Some(n) => Ok(v.(maxFps := n)))
      case "showFPS" => Ok(v.(showFps := sub[1] == "true"))
      case _ => Ok(v.(showLights := sub[1] == "true"))
  }

  /** The settings after reading some lines, and the fault that stopped the read, if any. */
  datatype Outcome = Outcome(values: OptionValues, fault: Option<Fault>)

  /** The whole read, line by line, stopping at the first line that faults. */
  function ReadLines(v: OptionValues, lines: seq<string>): Outcome
    decreases |lines|
  {
    if |lines| == 0 then Outcome(v, None)
    else
      var prev := ReadLines(v, lines[..|lines| - 1]);
      if prev.fault.Some? then prev
      else
        match ApplyLine(prev.values, lines[|lines| - 1])
        case Ok(w) => Outcome(w, None)
        case Err(f) => Outcome(prev.values, Some(f))
  }

  /** One line applied to the settings object, as the body of the read loop does it. */
  method ApplyLineTo(settings: Settings, line: string) returns (fault: Option<Fault>)
    modifies settings
    ensures ApplyLine(old(settings.Values()), line)
         == if fault.None? then Ok(settings.Values()) else Err(fault.value)
    ensures fault.Some? ==> settings.Values() == old(settings.Values())
  {
    var sub := Split(line, ':');
    if |sub| == 0 {
      return Some(IndexOutOfBounds);
    }
    if sub[0] !in Keys {
      return None;
    }
    if |sub| < 2 {
      return Some(IndexOutOfBounds);
    }
    fault := None;
    match sub[0] {
      case "lang" => settings.SetLangIndex(LangIndex(sub[1]));
      case "guiScale" => settings.SetScale(sub[1]);
      case "maxFPS" =>
        var n := ParseInt(sub[1]);
        if n.None? {
          return Some(NumberFormat);
        }
        settings.SetMaxFps(n.value);
      case "showFPS" => settings.SetShowFps(sub[1] == "true");
      case _ => settings.SetShowLights(sub[1] == "true");
    }
  }

  /**
   * `readOptions`: `file` is the file's lines, or `None` when opening it raised the
   * `IOException` the reader catches, in which case nothing is changed. Otherwise the
   * lines are applied in order until one faults; the fault is returned and the
   * settings keep what the earlier lines stored.
   */
  method ReadOptions(settings: Settings, file: Option<seq<string>>) returns (fault: Option<Fault>)
    modifies settings
    ensures file.None? ==> fault.None? && settings.Values() == old(settings.Values())
    ensures file.Some? ==>
      Outcome(settings.Values(), fault) == ReadLines(old(settings.Values()), file.value)
  {
    fault := None;
    if file.None? {
      return;
    }
    var lines := file.value;
    ghost var start := settings.Values();
    var i := 0;
    while i < |lines|
      invariant 0 <= i <= |lines|
      invariant fault.None? && ReadLines(start, lines[..i]) == Outcome(settings.Values(), None)
    {
      assert lines[..i + 1][..i] == lines[..i];
      fault := ApplyLineTo(settings, lines[i]);
      if fault.Some? {
        FaultStops(start, lines[..i + 1], lines[i + 1..]);
        assert lines[..i + 1] + lines[i + 1..] == lines;
        return;
      }
      i := i + 1;
    }
    assert lines[..i] == lines;
  }

  // ---------------------------------------------------------------------------
  // What single lines do

  /** `lang:<value>` selects French exactly for "fr", and index 0 for every other value. */
  lemma LangLine(v: OptionValues, value: string)
    requires ':' !in value && value != ""
    ensures ApplyLine(v, Line("lang", value)) == Ok(v.(langIndex := if value == "fr" then 1 else 0))
  {
    SplitKeyValue("lang", ':', value);

  }

  /** `guiScale:<value>` stores the value text unchanged. */
  lemma ScaleLine(v: OptionValues, value: string)
    requires ':' !in value && value != ""
    ensures ApplyLine(v, Line("guiScale", value)) == Ok(v.(scale := value))
  {
    SplitKeyValue("guiScale", ':', value);

  }

  /** `maxFPS:<n>` written by `Integer.toString` reads back as n, for every 32-bit n. */
  lemma MaxFpsLine(v: OptionValues, n: int)
    requires MinInt <= n <= MaxInt
    ensures ApplyLine(v, Line("maxFPS", IntToString(n))) == Ok(v.(maxFps := n))
  {
    var text := IntToString(n);
    NatToStringValue(if n < 0 then -n else n);
    assert ':' !in text by {
      if n < 0 {
        assert text == "-" + NatToString(-n);
        assert forall k :: 1 <= k < |text| ==> text[k] == NatToString(-n)[k - 1];
      }
    }
    SplitKeyValue("maxFPS", ':', text);

    ParseIntOfToString(n);
  }

  /** A `maxFPS` value that is not a 32-bit integer raises a number-format error. */
  lemma MaxFpsNotANumber(v: OptionValues, value: string)
    requires ':' !in value && value != "" && ParseInt(value).None?
    ensures ApplyLine(v, Line("maxFPS", value)) == Err(NumberFormat)
  {
    SplitKeyValue("maxFPS", ':', value);

  }

  /** `showFPS` and `showLights` are switched on exactly by the value "true". */
  lemma FlagLines(v: OptionValues, value: string)
    requires ':' !in value && value != ""
    ensures ApplyLine(v, Line("showFPS", value)) == Ok(v.(showFps := value == "true"))
    ensures ApplyLine(v, Line("showLights", value)) == Ok(v.(showLights := value == "true"))
  {
    SplitKeyValue("showFPS", ':', value);

    SplitKeyValue("showLights", ':', value);

  }

  /** A recognised key with no value, with or without the ':', is out of range. */
  lemma KeyWithoutValue(v: OptionValues, key: string)
    requires key in Keys
    ensures ApplyLine(v, key) == Err(IndexOutOfBounds)
    ensures ApplyLine(v, Line(key, "")) == Err(IndexOutOfBounds)
  {
    assert Line(key, "") == key + [':'];
    assert ':' !in key;
    SplitKeyOnly(key, ':');

  }

  /** A line with an unrecognised key changes nothing, whatever follows the key. */
  lemma UnknownKeyIgnored(v: OptionValues, key: string, rest: string)
    requires key != "" && ':' !in key && key !in Keys
    requires rest == "" || rest[0] == ':'
    ensures ApplyLine(v, key + rest) == Ok(v)
  {
    SplitFirst(key, ':', rest);
  }

  // ---------------------------------------------------------------------------
  // The whole file

  /** The setting a key controls is the same in both value sets. */
  predicate Agree(key: string, a: OptionValues, b: OptionValues) {
    match key
    case "lang" => a.langIndex == b.langIndex
    case "guiScale" => a.scale == b.scale
    case "maxFPS" => a.maxFps == b.maxFps
    case "showFPS" => a.showFps == b.showFps
    case "showLights" => a.showLights == b.showLights
    case _ => true
  }

  /** A line only touches the setting its own key names. */
  lemma ApplyKeepsOthers(v: OptionValues, line: string, key: string)
    requires ApplyLine(v, line).Ok? && KeyOf(line) != Some(key)
    ensures Agree(key, ApplyLine(v, line).value, v)
  {
  }

  /** What a line stores does not depend on the settings it is applied to. */
  lemma ApplySetsKey(a: OptionValues, b: OptionValues, line: string)
    requires ApplyLine(a, line).Ok? && KeyOf(line).Some?
    ensures ApplyLine(b, line).Ok?
    ensures Agree(KeyOf(line).value, ApplyLine(a, line).value, ApplyLine(b, line).value)
  {
  }

  /**
   * A later line overrides an earlier one: when the read succeeds, the setting a key
   * controls ends up as the last line with that key alone would set it.
   */
  lemma {:induction false} LastLineWins(v: OptionValues, lines: seq<string>, k: nat, key: string)
    requires k < |lines| && ReadLines(v, lines).fault.None?
    requires KeyOf(lines[k]) == Some(key)
    requires forall j :: k < j < |lines| ==> KeyOf(lines[j]) != Some(key)
    ensures ApplyLine(v, lines[k]).Ok?
    ensures Agree(key, ReadLines(v, lines).values, ApplyLine(v, lines[k]).value)
    decreases |lines|
  {
    var init := lines[..|lines| - 1];
    var last := lines[|lines| - 1];
    var prev := ReadLines(v, init);
    if k == |lines| - 1 {
      ApplySetsKey(prev.values, v, last);
    } else {
      forall j | k < j < |init|
        ensures KeyOf(init[j]) != Some(key)
      {
        assert init[j] == lines[j];
      }
      assert init[k] == lines[k];
      LastLineWins(v, init, k, key);
      ApplyKeepsOthers(prev.values, last, key);
    }
  }

  /** Nothing after a faulting line is read. */
  lemma {:induction false} FaultStops(v: OptionValues, lines: seq<string>, rest: seq<string>)
    requires ReadLines(v, lines).fault.Some?
    ensures ReadLines(v, lines + rest) == ReadLines(v, lines)
    decreases |rest|
  {
    if |rest| > 0 {
      var init := rest[..|rest| - 1];
      FaultStops(v, lines, init);
      assert (lines + rest)[..|lines + rest| - 1] == lines + init;
    } else {
      assert lines + rest == lines;
    }
  }

  /** Reading line k after a read of the lines before it that did not fault. */
  lemma ReadOneMore(v: OptionValues, lines: seq<string>, k: nat, w: OptionValues)
    requires k < |lines| && ReadLines(v, lines[..k]).fault.None?
    requires ApplyLine(ReadLines(v, lines[..k]).values, lines[k]) == Ok(w)
    ensures ReadLines(v, lines[..k + 1]) == Outcome(w, None)
    ensures k + 1 == |lines| ==> ReadLines(v, lines) == Outcome(w, None)
  {
    assert lines[..k + 1][..k] == lines[..k];
    assert k + 1 == |lines| ==> lines[..k + 1] == lines;
  }

  /** What default line i stores, on its own. */
  function SetDefault(u: OptionValues, i: nat): OptionValues {
    if i == 0 then u.(langIndex := 0)
    else if i == 1 then u.(scale := "3")
    else if i == 2 then u.(maxFps := 60)
    else if i == 3 then u.(showFps := false)
    else u.(showLights := true)
  }

  /** The settings after the first k default lines. */
  function DefaultsAfter(v: OptionValues, k: nat): OptionValues {
    if k == 0 then v else SetDefault(DefaultsAfter(v, k - 1), k - 1)
  }

  /** The default frame rate line is the one `Integer.toString(60)` writes. */
  lemma DefaultMaxFps(u: OptionValues)
    ensures ApplyLine(u, Line("maxFPS", "60")) == Ok(u.(maxFps := 60))
  {
    assert IntToString(60) == "60";
    MaxFpsLine(u, 60);
  }

  /** Default line i on its own sets the setting it names to its default value. */
  lemma DefaultLineValue(u: OptionValues, i: nat)
    requires i < |DefaultLines|
    ensures ApplyLine(u, DefaultLines[i]) == Ok(SetDefault(u, i))
  {
    if i == 0 {
      LangLine(u, "en");
    } else if i == 1 {
      ScaleLine(u, "3");
    } else if i == 2 {
      DefaultMaxFps(u);
    } else if i == 3 {
      FlagLines(u, "false");
    } else {
      FlagLines(u, "true");
    }
  }

  /** Reading the first k default lines applies them one after the other, without a fault. */
  lemma {:induction false} DefaultPrefix(v: OptionValues, k: nat)
    requires k <= |DefaultLines|
    ensures ReadLines(v, DefaultLines[..k]) == Outcome(DefaultsAfter(v, k), None)
    ensures k == |DefaultLines| ==> ReadLines(v, DefaultLines) == Outcome(DefaultsAfter(v, k), None)
  {
    if k > 0 {
      DefaultPrefix(v, k - 1);
      DefaultLineValue(DefaultsAfter(v, k - 1), k - 1);
      ReadOneMore(v, DefaultLines, k - 1, DefaultsAfter(v, k));
    }
  }

  /** Reading the default file sets English, scale "3", 60 frames per second, no counter, lights on. */
  lemma DefaultOptions(v: OptionValues)
    ensures ReadLines(v, DefaultLines)
         == Outcome(OptionValues(0, "3", 60, false, true), None)
  {
    DefaultPrefix(v, |DefaultLines|);
    assert DefaultsAfter(v, 1) == v.(langIndex := 0);
    assert DefaultsAfter(v, 2) == v.(langIndex := 0, scale := "3");
    assert DefaultsAfter(v, 3) == v.(langIndex := 0, scale := "3", maxFps := 60);
    assert DefaultsAfter(v, 4) == OptionValues(0, "3", 60, false, v.showLights);
  }
}

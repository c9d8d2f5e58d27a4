/**
 * The game's settings: key bindings per action, numeric game settings, the
 * reserved system keys, the level arithmetic and the line rule of the
 * settings file loader. The file itself is replaced by its sequence of lines;
 * writing the file is not part of this model.
 */
module GameSettings {
  import opened Wrappers

  /** The keys the menus use; no action may be bound to them. */
  const ReservedKeys: set<char> := {'1', '2', '3', '4', 's', 'h', 'r', 'n', 'v', 'q'}

  /** The bindings `loadDefaultControls` installs. */
  const DefaultControls: map<string, char> :=
    map["LEFT" := 'a', "RIGHT" := 'd', "DOWN" := 's', "DROP" := 'w',
        "ROTATE" := ' ', "PAUSE" := 'e', "QUIT" := 'q']

  /** The numeric settings `loadDefaultControls` installs. */
  const DefaultGameSettings: map<string, int> :=
    map["LEVEL" := 1, "SCORE" := 0, "LINES_CLEARED" := 0, "GRAVITY_SPEED" := 200000]

  const NoKey: char := 0 as char

  /** `isValidKey`: a printable ASCII character (the space included). */
  predicate IsValidKey(key: char) {
    ' ' <= key <= '~'
  }

  /** `std::tolower` in the C locale. */
  function ToLower(c: char): (r: char)
    ensures 'A' <= c <= 'Z' ==> 'a' <= r <= 'z' && r as int - c as int == 32
    ensures !('A' <= c <= 'Z') ==> r == c
  {
    if 'A' <= c <= 'Z' then (c as int + 32) as char else c
  }

  /** `getControl`: the key bound to an action, or the character 0 for an unknown action. */
  function ControlFor(controls: map<string, char>, action: string): (k: char)
    ensures action in controls ==> k == controls[action]
    ensures action !in controls ==> k == NoKey
  {
    if action in controls then controls[action] else NoKey
  }

  /** `getLevel`: the LEVEL setting, 1 when absent. */
  function LevelIn(gameSettings: map<string, int>): (level: int)
    ensures "LEVEL" !in gameSettings ==> level == 1
    ensures "LEVEL" in gameSettings ==> level == gameSettings["LEVEL"]
  {
    if "LEVEL" in gameSettings then gameSettings["LEVEL"] else 1
  }

  /** `getDropPointsForLevel`: points per row of a hard drop. */
  function DropPointsForLevel(level: int): int {
    50 * level
  }

  /** `getSpeedForLevel`: the gravity delay in microseconds. */
  function SpeedForLevel(level: int): int {
    var speed := 200000 - (level - 1) * 15000;
    if speed > 50000 then speed else 50000
  }

  /**
   * The gravity delay is 200000 at level 1, never below 50000, shrinks by
   * 15000 a level until it reaches 50000, and never grows with the level.
   */
  lemma SpeedRules(l1: int, l2: int)
    ensures SpeedForLevel(1) == 200000
    ensures SpeedForLevel(l1) >= 50000
    ensures l1 <= l2 ==> SpeedForLevel(l2) <= SpeedForLevel(l1)
    ensures l1 <= 10 ==> SpeedForLevel(l1) == 200000 - (l1 - 1) * 15000
    ensures l1 >= 11 ==> SpeedForLevel(l1) == 50000
  {
  }

  /** Drop points grow by 50 a level, and are positive exactly for positive levels. */
  lemma DropPointsRules(level: int)
    ensures DropPointsForLevel(level + 1) == DropPointsForLevel(level) + 50
    ensures DropPointsForLevel(level) > 0 <==> level > 0
  {
  }

  /** No two actions share a key. */
  predicate Distinct(controls: map<string, char>) {
    forall a, b | a in controls && b in controls && a != b :: controls[a] != controls[b]
  }

  /** Whether some action other than `action` holds `key`. */
  predicate HeldByOther(controls: map<string, char>, action: string, key: char) {
    exists a | a in controls :: a != action && controls[a] == key
  }

  /** Binding a key no other action holds keeps the bindings pairwise distinct. */
  lemma RebindKeepsDistinct(controls: map<string, char>, action: string, key: char)
    requires Distinct(controls) && !HeldByOther(controls, action, key)
    ensures Distinct(controls[action := key])
  {
    var m := controls[action := key];
    forall a, b | a in m && b in m && a != b
      ensures m[a] != m[b]
    {
      if a == action {
        assert m[b] == controls[b];
      } else if b == action {
        assert m[a] == controls[a];
      }
    }
  }

  /** The default bindings are pairwise distinct. */
  lemma DefaultsDistinct()
    ensures Distinct(DefaultControls)
    ensures DefaultControls.Keys == {"LEFT", "RIGHT", "DOWN", "DROP", "ROTATE", "PAUSE", "QUIT"}
  {
    var m := DefaultControls;
    forall a, b | a in m && b in m && a != b
      ensures m[a] != m[b]
    {
    }
  }

  // ---------------------------------------------------------------------
  // The settings file loader, line by line

  predicate IsSpace(c: char) {
    c == ' ' || c == '\t' || c == '\n' || c == '\U{0B}' || c == '\U{0C}' || c == '\r'
  }

  predicate IsDigit(c: char) {
    '0' <= c <= '9'
  }

  function DigitValue(c: char): int
    requires IsDigit(c)
  {
    c as int - '0' as int
  }

  /** The value of a string of decimal digits. */
  function DecimalValue(d: string): (n: nat)
    requires forall i | 0 <= i < |d| :: IsDigit(d[i])
  {
    if |d| == 0 then 0 else DecimalValue(d[..|d| - 1]) * 10 + DigitValue(d[|d| - 1])
  }

  /** Index of the first character at or after `i` that is not white space. */
  function SkipSpaces(s: string, i: nat): (j: nat)
    requires i <= |s|
    ensures i <= j <= |s|
    ensures forall k | i <= k < j :: IsSpace(s[k])
    ensures j < |s| ==> !IsSpace(s[j])
    decreases |s| - i
  {
    if i < |s| && IsSpace(s[i]) then SkipSpaces(s, i + 1) else i
  }

  /** Index of the first character at or after `i` that is not a digit. */
  function DigitsEnd(s: string, i: nat): (j: nat)
    requires i <= |s|
    ensures i <= j <= |s|
    ensures forall k | i <= k < j :: IsDigit(s[k])
    ensures j < |s| ==> !IsDigit(s[j])
    decreases |s| - i
  {
    if i < |s| && IsDigit(s[i]) then DigitsEnd(s, i + 1) else i
  }

  const IntMin: int := -0x8000_0000
  const IntMax: int := 0x7FFF_FFFF

  /**
   * `std::stoi` with its exceptions turned into `None`: leading white space,
   * an optional sign, then at least one digit (trailing characters are
   * ignored); a value outside the 32-bit range is rejected.
   */
  function Stoi(s: string): (r: Option<int>)
    ensures r.Some? ==> IntMin <= r.value <= IntMax
  {
    var start := SkipSpaces(s, 0);
    var negative := start < |s| && s[start] == '-';
    var digits := if start < |s| && (s[start] == '-' || s[start] == '+') then start + 1 else start;
    var end := DigitsEnd(s, digits);
    if end == digits then None
    else
      var magnitude := DecimalValue(s[digits..end]);
      var value: int := if negative then -(magnitude as int) else magnitude;
      if IntMin <= value <= IntMax then Some(value) else None
  }

  /** The decimal text `operator<<` writes for a nonnegative number. */
  function DecimalText(n: nat): (d: string)
    ensures |d| >= 1 && forall i | 0 <= i < |d| :: IsDigit(d[i])
  {
    if n < 10 then [('0' as int + n) as char] else DecimalText(n / 10) + [('0' as int + n % 10) as char]
  }

  /** The decimal text of any number, with a minus sign when negative. */
  function IntText(n: int): string {
    if n < 0 then "-" + DecimalText(-n) else DecimalText(n)
  }

  lemma {:induction false} DecimalRoundTrip(n: nat)
    ensures DecimalValue(DecimalText(n)) == n
  {
    if n >= 10 {
      DecimalRoundTrip(n / 10);
      var d := DecimalText(n);
      assert d[..|d| - 1] == DecimalText(n / 10);
    }
  }

  /**
   * A number written the way the settings file stores it is read back by
   * `stoi` unchanged, for every value in the 32-bit range.
   */
  lemma StoiReadsWrittenNumber(n: int)
    requires IntMin <= n <= IntMax
    ensures Stoi(IntText(n)) == Some(n)
  {
    var s := IntText(n);
    var m := if n < 0 then -n else n;
    var d := DecimalText(m);
    DecimalRoundTrip(m);
    assert SkipSpaces(s, 0) == 0;
    var digits := if n < 0 then 1 else 0;
    assert s[digits..] == d;
    assert DigitsEnd(s, digits) == |s| by {
      DigitsRunToEnd(s, digits);
    }
    assert s[digits..|s|] == d;
  }

  lemma {:induction false} DigitsRunToEnd(s: string, i: nat)
    requires i <= |s| && forall k | i <= k < |s| :: IsDigit(s[k])
    ensures DigitsEnd(s, i) == |s|
    decreases |s| - i
  {
    if i < |s| {
      DigitsRunToEnd(s, i + 1);
    }
  }

  /** Index of the first '=' in `s`, or |s| when there is none. */
  function FirstEquals(s: string, i: nat): (j: nat)
    requires i <= |s|
    ensures i <= j <= |s|
    ensures forall k | i <= k < j :: s[k] != '='
    ensures j < |s| ==> s[j] == '='
    decreases |s| - i
  {
    if i < |s| && s[i] != '=' then FirstEquals(s, i + 1) else i
  }

  /**
   * Reading `key` up to the first '=' and `value` to the end of the line:
   * there is no pair when the line has no '=' or nothing follows it.
   */
  function SplitPair(line: string): (r: Option<(string, string)>)
    ensures r.Some? ==> r.value.0 + "=" + r.value.1 == line && '=' !in r.value.0 && |r.value.1| > 0
    ensures r.None? ==> '=' !in line || line[|line| - 1] == '='
  {
    var eq := FirstEquals(line, 0);
    if eq < |line| && eq + 1 < |line| then
      assert line[..eq] + "=" + line[eq + 1..] == line;
      Some((line[..eq], line[eq + 1..]))
    else
      None
  }

  /** What the loader has read so far: the current section and both maps. */
  datatype LoadState = LoadState(section: string, controls: map<string, char>, gameSettings: map<string, int>)

  /** The loader's handling of one line of the settings file. */
  function LoadLine(st: LoadState, line: string): LoadState {
    if |line| == 0 || line[0] == '#' then st
    else if line[0] == '[' && line[|line| - 1] == ']' && |line| >= 2 then
      st.(section := line[1..|line| - 1])
    else
      match SplitPair(line)
      case None => st
      case Some((key, value)) =>
        if st.section == "CONTROLS" && |value| == 1 then
          if HeldByOther(st.controls, key, value[0]) then st
          else st.(controls := st.controls[key := value[0]])
        else if st.section == "SETTINGS" then
          match Stoi(value)
          case Some(n) => st.(gameSettings := st.gameSettings[key := n])
          case None => st
        else st
  }

  /** The loader over the first lines of a file, in order. */
  function LoadLines(st: LoadState, lines: seq<string>): LoadState {
    if |lines| == 0 then st else LoadLine(LoadLines(st, lines[..|lines| - 1]), lines[|lines| - 1])
  }

  /**
   * The per-line rules: empty and comment lines change nothing; a bracketed
   * line only sets the section; in CONTROLS a one-character value is taken
   * exactly when no other action holds it.
   */
  lemma LoadLineRules(st: LoadState, line: string)
    ensures |line| == 0 || line[0] == '#' ==> LoadLine(st, line) == st
    ensures |line| >= 2 && line[0] == '[' && line[|line| - 1] == ']' ==>
              LoadLine(st, line) == st.(section := line[1..|line| - 1])
    ensures forall key: string, c: char | line == key + "=" + [c] && '=' !in key && key != "" && key[0] != '#'
                                            && key[0] != '[' && st.section == "CONTROLS" ::
              LoadLine(st, line) == if HeldByOther(st.controls, key, c) then st
                                    else st.(controls := st.controls[key := c])
  {
    forall key: string, c: char | line == key + "=" + [c] && '=' !in key && key != "" && key[0] != '#'
                                   && key[0] != '[' && st.section == "CONTROLS"
      ensures LoadLine(st, line) == if HeldByOther(st.controls, key, c) then st
                                    else st.(controls := st.controls[key := c])
    {
      assert line[0] == key[0];
      EqualsSplit(key, [c]);
    }
  }

  /** A line `key=value` with no '=' in the key splits back into that key and value. */
  lemma EqualsSplit(key: string, value: string)
    requires '=' !in key && |value| > 0
    ensures SplitPair(key + "=" + value) == Some((key, value))
  {
    var line := key + "=" + value;
    var eq := FirstEquals(line, 0);
    assert forall k | 0 <= k < |key| :: line[k] == key[k];
    assert line[|key|] == '=';
    assert eq == |key|;
    assert line[..eq] == key;
    assert line[eq + 1..] == value;
  }

  /** Loading never makes two actions share a key. */
  lemma {:induction false} LoadKeepsDistinct(st: LoadState, lines: seq<string>)
    requires Distinct(st.controls)
    ensures Distinct(LoadLines(st, lines).controls)
  {
    if |lines| > 0 {
      LoadKeepsDistinct(st, lines[..|lines| - 1]);
      var before := LoadLines(st, lines[..|lines| - 1]);
      var line := lines[|lines| - 1];
      if |line| > 0 && line[0] != '#' && !(line[0] == '[' && line[|line| - 1] == ']' && |line| >= 2) {
        match SplitPair(line)
        case None =>
        case Some((key, value)) =>
          if before.section == "CONTROLS" && |value| == 1 && !HeldByOther(before.controls, key, value[0]) {
            RebindKeepsDistinct(before.controls, key, value[0]);
          }
      }
    }
  }

  class Settings {
    /** Action name to key. */
    var controls: map<string, char>
    /** Setting name to value: LEVEL, SCORE, LINES_CLEARED, GRAVITY_SPEED. */
    var gameSettings: map<string, int>
    var reservedKeys: set<char>

    /**
     * Reserved keys, then the defaults, then the settings file when there is
     * one (`file` is its lines, `None` when it cannot be opened).
     */
    constructor (file: Option<seq<string>>)
      ensures reservedKeys == ReservedKeys
      ensures file.None? ==> controls == DefaultControls && gameSettings == DefaultGameSettings
      ensures file.Some? ==>
                var loaded := LoadLines(LoadState("", DefaultControls, DefaultGameSettings), file.value);
                controls == loaded.controls && gameSettings == loaded.gameSettings
    {
      controls := map[];
      gameSettings := map[];
      reservedKeys := {};
      new;
      InitReservedKeys();
      LoadDefaultControls();
      LoadSettings(file);
    }

    /** `initReservedKeys`. */
    method InitReservedKeys()
      modifies this
      ensures reservedKeys == ReservedKeys
      ensures controls == old(controls) && gameSettings == old(gameSettings)
    {
      reservedKeys := {'1', '2', '3', '4', 's', 'h', 'r', 'n', 'v', 'q'};
    }

    /** `loadDefaultControls`: writes every default entry over the current maps. */
    method LoadDefaultControls()
      modifies this
      ensures controls == old(controls) + DefaultControls
      ensures gameSettings == old(gameSettings) + DefaultGameSettings
      ensures reservedKeys == old(reservedKeys)
    {
      controls := controls + DefaultControls;
      gameSettings := gameSettings + DefaultGameSettings;
    }

    /** `isKeyReserved`. */
    predicate IsKeyReserved(key: char)
      reads this
    {
      key in reservedKeys
    }

    /**
     * `isKeyAvailableForAction`: not reserved, not bound to any other action,
     * and printable.
     */
    predicate IsKeyAvailableForAction(action: string, key: char)
      reads this
    {
      !IsKeyReserved(key) && !HeldByOther(controls, action, key) && IsValidKey(key)
    }

    /** `getLinesForNextLevel`: ten lines per level. */
    function GetLinesForNextLevel(): (n: int)
      reads this
      ensures n == 10 * LevelIn(gameSettings)
    {
      LevelIn(gameSettings) * 10
    }

    /**
     * `setControl`: the key is lower-cased; an unknown action or an
     * unavailable key leaves everything unchanged and fails; otherwise only
     * that action's binding changes.
     */
    method SetControl(action: string, newKey: char) returns (ok: bool)
      modifies this
      ensures ok <==> action in old(controls) && old(IsKeyAvailableForAction(action, ToLower(newKey)))
      ensures ok ==> controls == old(controls)[action := ToLower(newKey)]
      ensures !ok ==> controls == old(controls)
      ensures gameSettings == old(gameSettings) && reservedKeys == old(reservedKeys)
    {
      var key := ToLower(newKey);
      if action !in controls {
        return false;
      }
      var available := KeyAvailable(action, key);
      if !available {
        return false;
      }
      controls := controls[action := key];
      return true;
    }

    /** `isKeyAvailableForAction`, its reserved-key test and its loop over the bindings. */
    method KeyAvailable(action: string, key: char) returns (available: bool)
      ensures available == IsKeyAvailableForAction(action, key)
    {
      if key in reservedKeys {
        return false;
      }
      var held := KeyHeldByOther(action, key);
      return !held && IsValidKey(key);
    }

    /** The search through the bindings for another action holding `key`. */
    method KeyHeldByOther(action: string, key: char) returns (held: bool)
      ensures held == HeldByOther(controls, action, key)
    {
      held := false;
      var rest := controls.Keys;
      while rest != {}
        invariant rest <= controls.Keys
        invariant held == exists a | a in controls && a !in rest :: a != action && controls[a] == key
        decreases rest
      {
        var a :| a in rest;
        if a != action && controls[a] == key {
          held := true;
          break;
        }
        rest := rest - {a};
      }
    }

    /** `setLevel`: stores the level and the gravity delay that goes with it. */
    method SetLevel(level: int)
      modifies this
      ensures gameSettings == old(gameSettings)["LEVEL" := level]["GRAVITY_SPEED" := SpeedForLevel(level)]
      ensures controls == old(controls) && reservedKeys == old(reservedKeys)
    {
      gameSettings := gameSettings["LEVEL" := level];
      gameSettings := gameSettings["GRAVITY_SPEED" := SpeedForLevel(level)];
    }

    /** `resetToDefaults`: clears both maps and installs the defaults. */
    method ResetToDefaults()
      modifies this
      ensures controls == DefaultControls && gameSettings == DefaultGameSettings
      ensures reservedKeys == old(reservedKeys)
    {
      controls := map[];
      gameSettings := map[];
      LoadDefaultControls();
    }

    /** The line loop of `loadSettings`; nothing happens when the file cannot be opened. */
    method LoadSettings(file: Option<seq<string>>)
      modifies this
      ensures file.None? ==> controls == old(controls) && gameSettings == old(gameSettings)
      ensures file.Some? ==>
                var loaded := LoadLines(LoadState("", old(controls), old(gameSettings)), file.value);
                controls == loaded.controls && gameSettings == loaded.gameSettings
      ensures reservedKeys == old(reservedKeys)
    {
      if file.None? {
        return;
      }
      var lines := file.value;
      ghost var start := LoadState("", controls, gameSettings);
      var section := "";
      var i := 0;
      while i < |lines|
        invariant 0 <= i <= |lines| && reservedKeys == old(reservedKeys)
        invariant LoadState(section, controls, gameSettings) == LoadLines(start, lines[..i])
      {
        assert lines[..i + 1][..i] == lines[..i];
        section := LoadOneLine(section, lines[i]);
        i := i + 1;
      }
      assert lines[..|lines|] == lines;
    }

    /** The body of the loader's line loop: skips, section headers and the two kinds of entries. */
    method LoadOneLine(section: string, line: string) returns (next: string)
      modifies this
      ensures LoadState(next, controls, gameSettings)
              == LoadLine(LoadState(section, old(controls), old(gameSettings)), line)
      ensures reservedKeys == old(reservedKeys)
    {
      next := section;
      if |line| == 0 || line[0] == '#' {
        return;
      }
      if line[0] == '[' && line[|line| - 1] == ']' && |line| >= 2 {
        next := line[1..|line| - 1];
        return;
      }
      var pair := SplitPair(line);
      if pair.Some? {
        var (key, value) := pair.value;
        if section == "CONTROLS" && |value| == 1 {
          var keyOccupied := KeyHeldByOther(key, value[0]);
          if !keyOccupied {
            controls := controls[key := value[0]];
          }
        } else if section == "SETTINGS" {
          var n := Stoi(value);
          if n.Some? {
            gameSettings := gameSettings[key := n.value];
          }
        }
      }
    }
  }

  /** `setLevel` keeps the gravity delay matched to the level. */
  predicate SpeedMatchesLevel(gameSettings: map<string, int>) {
    "GRAVITY_SPEED" in gameSettings && gameSettings["GRAVITY_SPEED"] == SpeedForLevel(LevelIn(gameSettings))
  }

  /** The defaults match speed to level, and so does every state `setLevel` leaves. */
  lemma SpeedFollowsLevel(gameSettings: map<string, int>, level: int)
    ensures SpeedMatchesLevel(DefaultGameSettings)
    ensures SpeedMatchesLevel(gameSettings["LEVEL" := level]["GRAVITY_SPEED" := SpeedForLevel(level)])
    ensures LevelIn(gameSettings["LEVEL" := level]["GRAVITY_SPEED" := SpeedForLevel(level)]) == level
  {
  }

  /**
   * A successful `setControl` keeps the bindings pairwise distinct: it only
   * binds a key that no other action holds.
   */
  lemma SetControlKeepsDistinct(controls: map<string, char>, reserved: set<char>, action: string, key: char)
    requires Distinct(controls)
    requires key !in reserved && !HeldByOther(controls, action, key) && IsValidKey(key)
    ensures Distinct(controls[action := key])
    ensures key !in reserved
  {
    RebindKeepsDistinct(controls, action, key);
  }
}

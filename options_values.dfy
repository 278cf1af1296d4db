/** The options menu's view of the log levels and of the mods' enabled
    flags. The log levels are the bits of the integer stored under
    `logFlags`; each is read and written on its own. */
module OptionsValues {
  import opened Wrappers
  import Strings
  import JsBits
  import LocalStorage
  import Console

  /** `0b011`: `WARN` and `ERROR` shown. */
  const DEFAULT_LOG_FLAGS: int := 3

  const LOG_FLAGS_KEY := "logFlags"

  /** What `getLogFlagsBitset` reads from storage holding `items`: the
      Number `parseInt` makes of the text, or the default when the text is
      missing, empty or `NaN`. Unlike `getLogLevels` no safe-integer check
      is made, so an integer of 2^53 or more comes back rounded. */
  function StoredBitset(items: map<string, string>): (bitset: JsBits.Number)
    ensures (LOG_FLAGS_KEY !in items || items[LOG_FLAGS_KEY] == "" ||
             Strings.ParseInt(items[LOG_FLAGS_KEY]).None?) ==> bitset == JsBits.Finite(DEFAULT_LOG_FLAGS)
    ensures LOG_FLAGS_KEY in items && items[LOG_FLAGS_KEY] != "" && Strings.ParseInt(items[LOG_FLAGS_KEY]).Some? ==>
      var n := Strings.ParseInt(items[LOG_FLAGS_KEY]).value;
      (-(JsBits.TWO_53 as int) < n < JsBits.TWO_53 ==> bitset == JsBits.Finite(n))
  {
    if LOG_FLAGS_KEY in items && items[LOG_FLAGS_KEY] != "" then
      match Strings.ParseInt(items[LOG_FLAGS_KEY])
      case None => JsBits.Finite(DEFAULT_LOG_FLAGS)
      case Some(n) => JsBits.NumberOf(n)
    else JsBits.Finite(DEFAULT_LOG_FLAGS)
  }

  /** `getLogFlagsBitset` */
  method GetLogFlagsBitset(storage: LocalStorage.Storage) returns (logFlags: JsBits.Number)
    ensures logFlags == StoredBitset(storage.items)
  {
    var logFlagsStr := storage.GetItem(LOG_FLAGS_KEY);
    var parsed: Option<int>;
    if logFlagsStr.Some? && logFlagsStr.value != "" {
      parsed := Strings.ParseInt(logFlagsStr.value);
    } else {
      parsed := Some(DEFAULT_LOG_FLAGS);
    }
    if parsed.None? {
      logFlags := JsBits.Finite(DEFAULT_LOG_FLAGS);
    } else {
      logFlags := JsBits.NumberOf(parsed.value);
    }
  }

  /** An integer stored past the precision of a Number reads back rounded:
      `2^53 + 1` is read as `2^53`, so flag 0 reads as clear although the
      stored integer is odd. */
  lemma {:induction false} StoredPastPrecision()
    ensures var items := map[LOG_FLAGS_KEY := Strings.IntToString(JsBits.TWO_53 + 1)];
      StoredBitset(items) == JsBits.Finite(JsBits.TWO_53) && !LogFlag(items, 0)
  {
    Strings.ParseIntOfIntToString(JsBits.TWO_53 + 1);
    JsBits.FirstInexact();
  }

  /** `setLogFlagsBitset` */
  method SetLogFlagsBitset(storage: LocalStorage.Storage, value: int)
    modifies storage
    ensures storage.items == old(storage.items)[LOG_FLAGS_KEY := Strings.IntToString(value)]
  {
    storage.SetItem(LOG_FLAGS_KEY, Strings.IntToString(value));
  }

  /** Flag `index` of storage holding `items`: its bit, counting the shift
      modulo 32 as `>>` does. */
  function LogFlag(items: map<string, string>, index: int): bool {
    JsBits.TestBit(JsBits.Operand(StoredBitset(items)), JsBits.ShiftCount(index))
  }

  /** `getLogFlag`: `Boolean((bitset >> index) & 1)`. */
  method GetLogFlag(storage: LocalStorage.Storage, index: int) returns (flag: bool)
    ensures flag == LogFlag(storage.items, index)
  {
    var logFlags := GetLogFlagsBitset(storage);
    var bitset := JsBits.Operand(logFlags);
    flag := JsBits.BitAnd(JsBits.ShiftRight(bitset, index), 1) != 0;
    ShiftCountOf(index);
    JsBits.ShiftRightAndOne(bitset, JsBits.ShiftCount(index));
  }

  /** The shift count of a shift count is itself, so a shift by `index` and
      by `ShiftCount(index)` agree. */
  lemma {:induction false} ShiftCountOf(index: int)
    ensures JsBits.ShiftCount(JsBits.ShiftCount(index)) == JsBits.ShiftCount(index)
    ensures forall x :: JsBits.ShiftRight(x, index) == JsBits.ShiftRight(x, JsBits.ShiftCount(index))
    ensures forall x :: JsBits.ShiftLeft(x, index) == JsBits.ShiftLeft(x, JsBits.ShiftCount(index))
  {
  }

  /** The bitset with bit `index` (modulo 32) set to `value` and the others
      kept. */
  function WithFlag(bitset: int, index: int, value: bool): int {
    JsBits.Int32(JsBits.BitsOf(bitset, 32)[JsBits.ShiftCount(index) := value])
  }

  /** Storage holding `items` after `setLogFlag(index, value)`. */
  function FlagSet(items: map<string, string>, index: int, value: bool): map<string, string> {
    items[LOG_FLAGS_KEY := Strings.IntToString(WithFlag(JsBits.Operand(StoredBitset(items)), index, value))]
  }

  /** `setLogFlag`: `bitset |= 1 << index` or `bitset &= ~(1 << index)`, then
      the bitset is stored. */
  method SetLogFlag(storage: LocalStorage.Storage, index: int, value: bool)
    modifies storage
    ensures storage.items == FlagSet(old(storage.items), index, value)
  {
    var logFlags := GetLogFlagsBitset(storage);
    var bitset := JsBits.Operand(logFlags);
    ghost var old_bitset := bitset;
    if value {
      bitset := JsBits.BitOr(bitset, JsBits.ShiftLeft(1, index));
    } else {
      bitset := JsBits.BitAnd(bitset, JsBits.BitNot(JsBits.ShiftLeft(1, index)));
    }
    SetBitOps(old_bitset, index, value);
    SetLogFlagsBitset(storage, bitset);
  }

  /** The or/and-not update of `setLogFlag` sets exactly the one bit. */
  lemma {:induction false} SetBitOps(bitset: int, index: int, value: bool)
    ensures WithFlag(bitset, index, value) ==
      if value then JsBits.BitOr(bitset, JsBits.ShiftLeft(1, index))
      else JsBits.BitAnd(bitset, JsBits.BitNot(JsBits.ShiftLeft(1, index)))
  {
    var mask := JsBits.ShiftLeft(1, index);
    var k := JsBits.ShiftCount(index);
    JsBits.BitsOfShiftedOne(index);
    JsBits.BitsOfOps(bitset, mask);
    JsBits.BitsOfOps(mask, 0);
    var bs := JsBits.BitsOf(bitset, 32);
    if value {
      assert JsBits.Or(bs, JsBits.Single(k)) == bs[k := value];
    } else {
      assert JsBits.And(bs, JsBits.Not(JsBits.Single(k))) == bs[k := value];
    }
  }

  /** What `setLogFlag` stores reads back as the bitset it computed. */
  lemma {:induction false} StoredWithFlag(items: map<string, string>, index: int, value: bool)
    ensures StoredBitset(FlagSet(items, index, value)) ==
      JsBits.Finite(WithFlag(JsBits.Operand(StoredBitset(items)), index, value))
  {
    var bs := JsBits.BitsOf(JsBits.Operand(StoredBitset(items)), 32)[JsBits.ShiftCount(index) := value];
    Strings.ParseIntOfIntToString(JsBits.Int32(bs));
    JsBits.Int32IsNumber(bs);
  }

  /** After `setLogFlag(index, value)`, `getLogFlag(index)` gives `value`. */
  lemma {:induction false} GetAfterSetLogFlag(items: map<string, string>, index: int, value: bool)
    ensures LogFlag(FlagSet(items, index, value), index) == value
  {
    StoredWithFlag(items, index, value);
    JsBits.BitsOfInt32(JsBits.BitsOf(JsBits.Operand(StoredBitset(items)), 32)[JsBits.ShiftCount(index) := value]);
  }

  /** `setLogFlag(index, value)` leaves every other flag as it was. */
  lemma {:induction false} SetLogFlagKeepsOthers(items: map<string, string>, index: int, value: bool, other: int)
    requires JsBits.ShiftCount(other) != JsBits.ShiftCount(index)
    ensures LogFlag(FlagSet(items, index, value), other) == LogFlag(items, other)
  {
    StoredWithFlag(items, index, value);
    JsBits.BitsOfInt32(JsBits.BitsOf(JsBits.Operand(StoredBitset(items)), 32)[JsBits.ShiftCount(index) := value]);
  }

  /** `setLogFlag` twice with the same arguments stores what once does. */
  lemma {:induction false} SetLogFlagIdempotent(items: map<string, string>, index: int, value: bool)
    ensures FlagSet(FlagSet(items, index, value), index, value) == FlagSet(items, index, value)
  {
    var once := FlagSet(items, index, value);
    var w := WithFlag(JsBits.Operand(StoredBitset(items)), index, value);
    StoredWithFlag(items, index, value);
    FlagSetOf(once, w, index, value);
    WithFlagIdempotent(JsBits.Operand(StoredBitset(items)), index, value);
  }

  /** `setLogFlag` on a bitset that reads back exactly. */
  lemma {:induction false} FlagSetOf(items: map<string, string>, bitset: int, index: int, value: bool)
    requires StoredBitset(items) == JsBits.Finite(bitset)
    ensures FlagSet(items, index, value) == items[LOG_FLAGS_KEY := Strings.IntToString(WithFlag(bitset, index, value))]
  {
  }

  /** Setting a bit to what it already is changes nothing. */
  lemma {:induction false} WithFlagIdempotent(bitset: int, index: int, value: bool)
    ensures WithFlag(WithFlag(bitset, index, value), index, value) == WithFlag(bitset, index, value)
  {
    var bs := JsBits.BitsOf(bitset, 32)[JsBits.ShiftCount(index) := value];
    JsBits.BitsOfInt32(bs);
    assert bs[JsBits.ShiftCount(index) := value] == bs;
  }

  /** The option ids of the three log levels. */
  function LogOptionId(level: Console.LogLevel): string {
    match level
    case LOG => "logLevel-log"
    case WARN => "logLevel-warn"
    case ERROR => "logLevel-error"
  }

  /** The flag each log-level option reads and writes. */
  function LogOptionIndex(level: Console.LogLevel): int {
    match level
    case LOG => 2
    case WARN => 1
    case ERROR => 0
  }

  /** The options use the console's bit of each level, so an option shows
      the level the console stored, and the default bitset is the console's
      default levels. */
  lemma {:induction false} LogOptionsMatchConsole(items: map<string, string>, levels: Console.LogLevels, level: Console.LogLevel)
    ensures LogOptionIndex(level) == Console.LevelBit(level)
    ensures LogFlag(items[LOG_FLAGS_KEY := Strings.IntToString(Console.BitFlags(levels))], LogOptionIndex(level)) ==
      levels.Get(level)
    ensures Console.LevelsOf(DEFAULT_LOG_FLAGS) == Console.DEFAULT_LOG_LEVELS
  {
    var stored := items[LOG_FLAGS_KEY := Strings.IntToString(Console.BitFlags(levels))];
    StoredLevels(items, levels);
    StoredFlag(stored, Console.BitFlags(levels), LogOptionIndex(level));
    LevelFlag(levels, level);
    DefaultFlagsLevels();
  }

  /** A flag of a stored bitset that reads back exactly is its bit. */
  lemma {:induction false} StoredFlag(items: map<string, string>, bitset: int, index: int)
    requires StoredBitset(items) == JsBits.Finite(bitset)
    ensures LogFlag(items, index) == JsBits.TestBit(bitset, JsBits.ShiftCount(index))
  {
  }

  /** The flag of a level's option is the console's bit of that level. */
  lemma {:induction false} LevelFlag(levels: Console.LogLevels, level: Console.LogLevel)
    ensures JsBits.TestBit(Console.BitFlags(levels), JsBits.ShiftCount(LogOptionIndex(level))) == levels.Get(level)
  {
    Console.BitFlagsLayout(levels);
    match level
    case LOG => assert JsBits.ShiftCount(2) == 2;
    case WARN => assert JsBits.ShiftCount(1) == 1;
    case ERROR => assert JsBits.ShiftCount(0) == 0;
  }

  /** The bitset the console stores reads back as it is. */
  lemma {:induction false} StoredLevels(items: map<string, string>, levels: Console.LogLevels)
    ensures StoredBitset(items[LOG_FLAGS_KEY := Strings.IntToString(Console.BitFlags(levels))]) ==
      JsBits.Finite(Console.BitFlags(levels))
  {
    Strings.ParseIntOfIntToString(Console.BitFlags(levels));
    JsBits.Int32IsNumber(Console.LevelBits(levels, |Console.LOG_LEVEL_NAMES|));
  }

  /** The default bitset holds the console's default levels. */
  lemma {:induction false} DefaultFlagsLevels()
    ensures Console.LevelsOf(DEFAULT_LOG_FLAGS) == Console.DEFAULT_LOG_LEVELS
  {
    assert JsBits.Bit(3, 1) == JsBits.Bit(1, 0);
    assert JsBits.Bit(3, 2) == JsBits.Bit(1, 1) == JsBits.Bit(0, 0);
  }

  const RUNTIME_MOD_ID := "ccloader-runtime"

  const MOD_ENABLED_PREFIX := "modEnabled-"

  /** The ids of the `modEnabled-` options for the installed mods, in order,
      without the runtime mod. */
  function ModOptionIds(modIds: seq<string>): (ids: seq<string>) {
    if |modIds| == 0 then []
    else
      var rest := ModOptionIds(modIds[..|modIds| - 1]);
      var modId := modIds[|modIds| - 1];
      if modId == RUNTIME_MOD_ID then rest else rest + [MOD_ENABLED_PREFIX + modId]
  }

  /** The loop defining a `modEnabled-<id>` option for each installed mod
      but the runtime mod. */
  method DefineModOptions(modIds: seq<string>) returns (optionIds: seq<string>)
    ensures optionIds == ModOptionIds(modIds)
  {
    optionIds := [];
    for i := 0 to |modIds|
      invariant optionIds == ModOptionIds(modIds[..i])
    {
      var modId := modIds[i];
      assert modIds[..i + 1][..i] == modIds[..i];
      if modId == RUNTIME_MOD_ID {
        continue;
      }
      var optionId := MOD_ENABLED_PREFIX + modId;
      optionIds := optionIds + [optionId];
    }
    assert modIds[..|modIds|] == modIds;
  }

  /** An option exists for exactly the installed mods other than the runtime
      mod. */
  lemma {:induction false} ModOptionIdsExactly(modIds: seq<string>, modId: string)
    ensures MOD_ENABLED_PREFIX + modId in ModOptionIds(modIds) <==>
      modId in modIds && modId != RUNTIME_MOD_ID
  {
    if |modIds| > 0 {
      var init := modIds[..|modIds| - 1];
      var last := modIds[|modIds| - 1];
      ModOptionIdsExactly(init, modId);
      assert modIds == init + [last];
      if MOD_ENABLED_PREFIX + modId == MOD_ENABLED_PREFIX + last {
        PrefixCancel(MOD_ENABLED_PREFIX, modId, last);
      }
    }
  }

  /** Equal strings with equal prefixes have equal rests. */
  lemma {:induction false} PrefixCancel(prefix: string, a: string, b: string)
    requires prefix + a == prefix + b
    ensures a == b
  {
    assert a == (prefix + a)[|prefix|..];
    assert b == (prefix + b)[|prefix|..];
  }

  /** The getter of a `modEnabled-` option: the stored text is `true`. */
  function ModEnabledOption(items: map<string, string>, optionId: string): bool {
    optionId in items && items[optionId] == "true"
  }

  /** `String(Boolean(value))` */
  function BooleanString(value: bool): string {
    if value then "true" else "false"
  }

  /** The setter of a `modEnabled-` option. */
  method SetModEnabledOption(storage: LocalStorage.Storage, optionId: string, value: bool)
    modifies storage
    ensures storage.items == old(storage.items)[optionId := BooleanString(value)]
  {
    storage.SetItem(optionId, BooleanString(value));
  }

  /** Reading a `modEnabled-` option after setting it gives the value set,
      and the other options are untouched. */
  lemma {:induction false} ModEnabledOptionRoundTrip(items: map<string, string>, optionId: string, value: bool, other: string)
    requires other != optionId
    ensures ModEnabledOption(items[optionId := BooleanString(value)], optionId) == value
    ensures ModEnabledOption(items[optionId := BooleanString(value)], other) == ModEnabledOption(items, other)
  {
  }
}

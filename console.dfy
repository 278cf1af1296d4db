/** The log levels of the mod loader's console and the way they are kept
    in local storage: three booleans packed into the low bits of an integer
    (`ERROR` is bit 0, `WARN` bit 1, `LOG` bit 2), stored under `logFlags`
    as its decimal text. Local storage is a map passed in and returned. */
module Console {
  import opened Wrappers
  import Strings
  import LocalStorage
  import JsBits

  datatype LogLevel = LOG | WARN | ERROR

  /** The bit of each level. */
  function LevelBit(level: LogLevel): (b: nat)
    ensures b < 3
  {
    match level
    case LOG => 2
    case WARN => 1
    case ERROR => 0
  }

  const LOG_LEVEL_NAMES: seq<LogLevel> := [LOG, WARN, ERROR]

  /** A dictionary from level to whether it is shown. */
  datatype LogLevels = LogLevels(log: bool, warn: bool, error: bool) {
    function Get(level: LogLevel): bool {
      match level
      case LOG => log
      case WARN => warn
      case ERROR => error
    }

    function Set(level: LogLevel, enabled: bool): (r: LogLevels)
      ensures r.Get(level) == enabled
      ensures forall other :: other != level ==> r.Get(other) == Get(other)
    {
      match level
      case LOG => this.(log := enabled)
      case WARN => this.(warn := enabled)
      case ERROR => this.(error := enabled)
    }
  }

  const DEFAULT_LOG_LEVELS := LogLevels(log := false, warn := true, error := true)

  const LOG_FLAGS_KEY := "logFlags"

  /** Whether one of the first `n` levels of `LOG_LEVEL_NAMES` is shown and
      sits at bit `j`. */
  predicate Contributes(levels: LogLevels, n: nat, j: int)
    requires n <= |LOG_LEVEL_NAMES|
  {
    n > 0 &&
      (Contributes(levels, n - 1, j) ||
       (LevelBit(LOG_LEVEL_NAMES[n - 1]) == j && levels.Get(LOG_LEVEL_NAMES[n - 1])))
  }

  /** The bits that the first `n` levels contribute. */
  function LevelBits(levels: LogLevels, n: nat): (bs: seq<bool>)
    requires n <= |LOG_LEVEL_NAMES|
    ensures |bs| == 32
  {
    seq(32, j requires 0 <= j < 32 => Contributes(levels, n, j))
  }

  /** `logLevelsToBitFlags`, specified by the bits it sets. */
  function BitFlags(levels: LogLevels): int {
    JsBits.Int32(LevelBits(levels, |LOG_LEVEL_NAMES|))
  }

  /** `Number(b)` */
  function Number(b: bool): int {
    if b then 1 else 0
  }

  /** `logLevelsToBitFlags`: `flags |= Number(enabled) << bit` for each
      level in turn. */
  method LogLevelsToBitFlags(levels: LogLevels) returns (flags: int)
    ensures flags == BitFlags(levels)
  {
    flags := 0;
    NoLevelBits(levels);
    for i := 0 to |LOG_LEVEL_NAMES|
      invariant flags == JsBits.Int32(LevelBits(levels, i))
    {
      var level := LOG_LEVEL_NAMES[i];
      var enabled := levels.Get(level);
      var shifted := JsBits.ShiftLeft(Number(enabled), LevelBit(level));
      AddLevelBit(levels, i + 1, flags, shifted);
      flags := JsBits.BitOr(flags, shifted);
    }
  }

  /** Before the loop no level has contributed a bit: the flags are 0. */
  lemma {:induction false} NoLevelBits(levels: LogLevels)
    ensures JsBits.Int32(LevelBits(levels, 0)) == 0
  {
    assert LevelBits(levels, 0) == JsBits.Zeros(32);
    JsBits.Int32Zeros();
  }

  /** The bits of `Number(enabled) << bit`: bit `bit` alone when enabled. */
  lemma {:induction false} ShiftedLevelBit(enabled: bool, bit: nat, j: nat)
    requires bit < 32 && j < 32
    ensures JsBits.TestBit(JsBits.ShiftLeft(Number(enabled), bit), j) == (enabled && j == bit)
  {
    if enabled {
      JsBits.BitsOfShiftedOne(bit);
    } else {
      JsBits.BitsOfShiftedZero(bit);
    }
  }

  /** One step of `logLevelsToBitFlags`: or-ing in the bit of level `n - 1`. */
  lemma {:induction false} AddLevelBit(levels: LogLevels, n: nat, flags: int, shifted: int)
    requires 0 < n <= |LOG_LEVEL_NAMES|
    requires flags == JsBits.Int32(LevelBits(levels, n - 1))
    requires shifted == JsBits.ShiftLeft(Number(levels.Get(LOG_LEVEL_NAMES[n - 1])), LevelBit(LOG_LEVEL_NAMES[n - 1]))
    ensures JsBits.BitOr(flags, shifted) == JsBits.Int32(LevelBits(levels, n))
  {
    var last := LOG_LEVEL_NAMES[n - 1];
    var before := LevelBits(levels, n - 1);
    var added := JsBits.BitsOf(shifted, 32);
    JsBits.BitsOfInt32(before);
    forall j | 0 <= j < 32
      ensures JsBits.Or(before, added)[j] == LevelBits(levels, n)[j]
    {
      ShiftedLevelBit(levels.Get(last), LevelBit(last), j);
    }
    assert JsBits.Or(before, added) == LevelBits(levels, n);
  }

  /** `logLevelsFromBitFlags`, specified: each level is shown exactly when
      its bit is set. */
  function LevelsOf(flags: int): LogLevels {
    LogLevels(log := JsBits.TestBit(flags, 2), warn := JsBits.TestBit(flags, 1), error := JsBits.TestBit(flags, 0))
  }

  /** `logLevelsFromBitFlags`: `levels[level] = Boolean(flags & (1 << bit))`
      for each level in turn. The dictionary starts empty in the source;
      every level is written, so the starting value does not show. */
  method LogLevelsFromBitFlags(flags: int) returns (levels: LogLevels)
    ensures levels == LevelsOf(flags)
  {
    levels := LogLevels(false, false, false);
    for i := 0 to |LOG_LEVEL_NAMES|
      invariant forall k :: 0 <= k < i ==>
        levels.Get(LOG_LEVEL_NAMES[k]) == LevelsOf(flags).Get(LOG_LEVEL_NAMES[k])
    {
      var level := LOG_LEVEL_NAMES[i];
      var bit := LevelBit(level);
      JsBits.MaskedBit(flags, bit);
      levels := levels.Set(level, JsBits.BitAnd(flags, JsBits.ShiftLeft(1, bit)) != 0);
    }
    assert levels.Get(LOG_LEVEL_NAMES[0]) == LevelsOf(flags).Get(LOG_LEVEL_NAMES[0]);
    assert levels.Get(LOG_LEVEL_NAMES[1]) == LevelsOf(flags).Get(LOG_LEVEL_NAMES[1]);
    assert levels.Get(LOG_LEVEL_NAMES[2]) == LevelsOf(flags).Get(LOG_LEVEL_NAMES[2]);
  }

  /** All three levels together: each shown level sets its own bit. */
  lemma {:induction false} AllLevelBits(levels: LogLevels, j: int)
    ensures Contributes(levels, |LOG_LEVEL_NAMES|, j) ==
      ((j == 2 && levels.log) || (j == 1 && levels.warn) || (j == 0 && levels.error))
  {
    assert LOG_LEVEL_NAMES[0] == LOG && LOG_LEVEL_NAMES[1] == WARN && LOG_LEVEL_NAMES[2] == ERROR;
    assert Contributes(levels, 1, j) == (j == 2 && levels.log);
    assert Contributes(levels, 2, j) == (Contributes(levels, 1, j) || (j == 1 && levels.warn));
  }

  /** The bit layout: `LOG` is bit 2, `WARN` bit 1, `ERROR` bit 0 and nothing
      above bit 2 is set. */
  lemma {:induction false} BitFlagsLayout(levels: LogLevels)
    ensures JsBits.TestBit(BitFlags(levels), 2) == levels.log
    ensures JsBits.TestBit(BitFlags(levels), 1) == levels.warn
    ensures JsBits.TestBit(BitFlags(levels), 0) == levels.error
    ensures forall j :: 3 <= j < 32 ==> !JsBits.TestBit(BitFlags(levels), j)
  {
    var bs := LevelBits(levels, |LOG_LEVEL_NAMES|);
    JsBits.BitsOfInt32(bs);
    forall j | 0 <= j < 32
      ensures bs[j] == ((j == 2 && levels.log) || (j == 1 && levels.warn) || (j == 0 && levels.error))
    {
      AllLevelBits(levels, j);
    }
  }

  /** `logLevelsToBitFlags` gives a value in `0..7`. */
  lemma {:induction false} BitFlagsRange(levels: LogLevels)
    ensures 0 <= BitFlags(levels) < 8
  {
    var bs := LevelBits(levels, |LOG_LEVEL_NAMES|);
    forall j | 3 <= j < 32
      ensures !bs[j]
    {
      AllLevelBits(levels, j);
    }
    JsBits.ValueOfLowBits(bs, 3);
    assert JsBits.Pow2(3) == 8;
  }

  /** Reading the flags back gives the levels they were made from. */
  lemma {:induction false} BitFlagsRoundTrip(levels: LogLevels)
    ensures LevelsOf(BitFlags(levels)) == levels
  {
    BitFlagsLayout(levels);
  }

  /** Packing read levels keeps exactly the three low bits: `f & 7`. */
  lemma {:induction false} LevelsOfRoundTrip(flags: int)
    ensures BitFlags(LevelsOf(flags)) == JsBits.BitAnd(flags, 7)
  {
    var bs := LevelBits(LevelsOf(flags), |LOG_LEVEL_NAMES|);
    var masked := JsBits.And(JsBits.BitsOf(flags, 32), JsBits.BitsOf(7, 32));
    JsBits.BitsOfSeven();
    forall j | 0 <= j < 32
      ensures bs[j] == masked[j]
    {
      AllLevelBits(LevelsOf(flags), j);
    }
    assert bs == masked;
  }

  /** `Number.isSafeInteger` for an integer. */
  predicate IsSafeInteger(n: int) {
    -0x1F_FFFF_FFFF_FFFF <= n <= 0x1F_FFFF_FFFF_FFFF
  }

  /** What `getLogLevels` reads from storage holding `items`: the stored
      flags when they parse to a safe integer, else a copy of the defaults. */
  function StoredLevels(items: map<string, string>): (levels: LogLevels)
    ensures LOG_FLAGS_KEY !in items || Strings.ParseInt(items[LOG_FLAGS_KEY]).None? ==>
      levels == DEFAULT_LOG_LEVELS
  {
    if LOG_FLAGS_KEY in items then
      var flags := Strings.ParseInt(items[LOG_FLAGS_KEY]);
      if flags.Some? && IsSafeInteger(flags.value) then LevelsOf(flags.value)
      else DEFAULT_LOG_LEVELS
    else DEFAULT_LOG_LEVELS
  }

  /** `getLogLevels` */
  method GetLogLevels(storage: LocalStorage.Storage) returns (levels: LogLevels)
    ensures levels == StoredLevels(storage.items)
  {
    var flagsStr := storage.GetItem(LOG_FLAGS_KEY);
    if flagsStr.Some? {
      var flags := Strings.ParseInt(flagsStr.value);
      if flags.Some? && IsSafeInteger(flags.value) {
        levels := LogLevelsFromBitFlags(flags.value);
        return;
      }
    }
    levels := DEFAULT_LOG_LEVELS;
  }

  /** `setLogLevels`: stores the flags as decimal text and changes no other
      key. */
  method SetLogLevels(storage: LocalStorage.Storage, levels: LogLevels)
    modifies storage
    ensures storage.items == old(storage.items)[LOG_FLAGS_KEY := Strings.IntToString(BitFlags(levels))]
  {
    var flags := LogLevelsToBitFlags(levels);
    storage.SetItem(LOG_FLAGS_KEY, Strings.IntToString(flags));
  }

  /** Setting the levels and reading them back gives the same levels. */
  lemma {:induction false} SetThenGetLogLevels(items: map<string, string>, levels: LogLevels)
    ensures StoredLevels(items[LOG_FLAGS_KEY := Strings.IntToString(BitFlags(levels))]) == levels
  {
    Strings.ParseIntOfIntToString(BitFlags(levels));
    BitFlagsRange(levels);
    BitFlagsRoundTrip(levels);
  }
}

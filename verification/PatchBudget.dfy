/**
 Boot schema patches (`backend/archimedes/db.py`): two loops over patch statements share one
 deadline, each statement runs in a transaction of its own, and both settings are sanitised.
 How long anything takes and how it ends are oracles.
 */
module PatchBudget {
  import opened Powers
  import opened Text
  import opened Wrappers

  // ----- settings -----

  /** A Python float as far as comparisons go. */
  datatype Float = Finite(value: real) | Infinite | MinusInfinite | NaN

  /** `x < f` for a finite `x`. */
  predicate Less(x: real, f: Float) {
    f.Infinite? || (f.Finite? && x < f.value)
  }

  /** `f <= 0`: false of NaN, as every comparison with it is. */
  predicate NotPositive(f: Float) {
    f.MinusInfinite? || (f.Finite? && f.value <= 0.0)
  }

  function Plus(x: real, f: Float): Float {
    if f.Finite? then Finite(x + f.value) else f
  }

  const DEFAULT_BUDGET := Finite(10.0)

  /** `_sanitised_lock_budget`; `parse` is Python's `float`, `None` where it raises. */
  function SanitisedBudget(raw: Option<string>, parse: string -> Option<Float>): Float {
    var budget := if raw.None? then DEFAULT_BUDGET
                  else if parse(raw.value).None? then Finite(0.0)
                  else parse(raw.value).value;
    if NotPositive(budget) then DEFAULT_BUDGET else budget
  }

  /** The budget is a positive number of seconds exactly when the setting does not spell NaN or infinity. */
  lemma BudgetIsPositive(raw: Option<string>, parse: string -> Option<Float>)
    ensures var b := SanitisedBudget(raw, parse);
      (b.Finite? && b.value > 0.0) <==> (raw.Some? ==> parse(raw.value) != Some(NaN) && parse(raw.value) != Some(Infinite))
  {
  }

  /** A setting that reads as more than zero is taken as it reads, and any other as ten seconds. */
  lemma BudgetIs(raw: Option<string>, parse: string -> Option<Float>)
    ensures raw.None? ==> SanitisedBudget(raw, parse) == Finite(10.0)
    ensures raw.Some? && parse(raw.value).None? ==> SanitisedBudget(raw, parse) == Finite(10.0)
    ensures forall v: real :: raw.Some? && parse(raw.value) == Some(Finite(v)) ==>
              SanitisedBudget(raw, parse) == Finite(if v > 0.0 then v else 10.0)
    ensures raw.Some? && parse(raw.value) == Some(MinusInfinite) ==> SanitisedBudget(raw, parse) == Finite(10.0)
    ensures raw.Some? && parse(raw.value) == Some(Infinite) ==> SanitisedBudget(raw, parse) == Infinite
    ensures raw.Some? && parse(raw.value) == Some(NaN) ==> SanitisedBudget(raw, parse) == NaN
  {
  }

  /** Microseconds in a unit; no unit means milliseconds. */
  function UnitMicros(unit: string): Option<nat> {
    if unit == "us" then Some(1)
    else if unit == "" || unit == "ms" then Some(1_000)
    else if unit == "s" then Some(1_000_000)
    else if unit == "min" then Some(60_000_000)
    else if unit == "h" then Some(3_600_000_000)
    else if unit == "d" then Some(86_400_000_000)
    else None
  }

  /**
   Python's decimal digits: `dec` gives the value of every character `\d` accepts. In ASCII these
   are the ten digits; beyond it there are hundreds more.
   */
  ghost predicate Decimal(dec: char -> Option<nat>) {
    && (forall c :: IsDigit(c) ==> dec(c) == Some((c - '0') as nat))
    && (forall c: char :: c as int < 128 && !IsDigit(c) ==> dec(c) == None)
  }

  /** How many leading digits. */
  function Leading(s: string, dec: char -> Option<nat>): (k: nat)
    ensures k <= |s| && (forall i :: 0 <= i < k ==> dec(s[i]).Some?) && (k < |s| ==> dec(s[k]).None?)
  {
    if s == [] || dec(s[0]).None? then 0 else
      var k := Leading(s[1..], dec) + 1;
      assert forall i :: 1 <= i < k ==> s[i] == s[1..][i - 1];
      k
  }

  /** What `int` makes of a run of digits. */
  function ValueOf(s: string, dec: char -> Option<nat>): nat
    requires forall i :: 0 <= i < |s| ==> dec(s[i]).Some?
  {
    if s == [] then 0 else ValueOf(s[..|s| - 1], dec) * 10 + dec(s[|s| - 1]).value
  }

  /** A number of units, as the whole text matches the pattern. */
  datatype Span = Span(digits: nat, number: nat, micros: nat, float: bool)

  function Match(s: string, dec: char -> Option<nat>): Option<Span> {
    var k := Leading(s, dec);
    var unit := UnitMicros(s[k..]);
    if k == 0 || unit.None? then None else Some(Span(k, ValueOf(s[..k], dec), unit.value, s[k..] == "us"))
  }

  const MAX_MICROS := 2_147_483_647_000

  /** `int` refuses longer numerals. */
  const MAX_STR_DIGITS := 4300

  /** Whole numbers from here on have no `float`. */
  function FloatLimit(): nat {
    PowersOrdered(970, 54);
    Pow2(1024) - Pow2(970)
  }

  lemma {:induction false} PowersOrdered(n: nat, k: nat)
    ensures Pow2(n + k) >= Pow2(n)
  {
    if k > 0 { PowersOrdered(n, k - 1); }
  }

  /** The two conversions that raise, outside any handler. */
  datatype Crash = TooManyDigits | TooLargeForFloat

  function CrashOf(m: Span): Option<Crash> {
    if m.digits > MAX_STR_DIGITS then Some(TooManyDigits)
    else if m.float && m.number >= FloatLimit() then Some(TooLargeForFloat)
    else None
  }

  predicate InRange(m: Span) {
    0 < m.number * m.micros <= MAX_MICROS
  }

  predicate Crashes(s: string, dec: char -> Option<nat>) {
    Match(s, dec).Some? && CrashOf(Match(s, dec).value).Some?
  }

  predicate Usable(s: string, dec: char -> Option<nat>) {
    Match(s, dec).Some? && CrashOf(Match(s, dec).value).None? && InRange(Match(s, dec).value)
  }

  const DEFAULT_TIMEOUT := "5s"

  /** `_sanitised_lock_timeout`. */
  function SanitisedTimeout(raw: Option<string>, dec: char -> Option<nat>): Result<string, Crash> {
    var m := if raw.None? then None else Match(raw.value, dec);
    if m.Some? && CrashOf(m.value).Some? then Err(CrashOf(m.value).value)
    else if m.Some? && InRange(m.value) then Ok(raw.value)
    else Ok(DEFAULT_TIMEOUT)
  }

  lemma {:induction false} LeadingOf(digits: string, unit: string, dec: char -> Option<nat>)
    requires Decimal(dec) && UnitMicros(unit).Some? && forall i :: 0 <= i < |digits| ==> dec(digits[i]).Some?
    ensures Leading(digits + unit, dec) == |digits|
  {
    hide Decimal;
    if digits == [] {
      assert digits + unit == unit;
      if unit != [] { UnitIsLetters(unit, 0, dec); }
    } else {
      assert (digits + unit)[0] == digits[0];
      assert (digits + unit)[1..] == digits[1..] + unit;
      LeadingOf(digits[1..], unit, dec);
    }
  }

  lemma UnitIsLetters(unit: string, i: nat, dec: char -> Option<nat>)
    requires Decimal(dec) && UnitMicros(unit).Some? && i < |unit|
    ensures 'a' <= unit[i] <= 'z' && dec(unit[i]).None?
  {
    assert 'a' <= unit[i] <= 'z';
    assert unit[i] as int < 128 && !IsDigit(unit[i]);
  }

  /** A numeral followed by a unit is read as that many units, in any script. */
  lemma MatchOf(digits: string, unit: string, dec: char -> Option<nat>)
    requires Decimal(dec) && UnitMicros(unit).Some? && digits != []
    requires forall i :: 0 <= i < |digits| ==> dec(digits[i]).Some?
    ensures Match(digits + unit, dec) == Some(Span(|digits|, ValueOf(digits, dec), UnitMicros(unit).value, unit == "us"))
  {
    hide UnitMicros, ValueOf, Decimal;
    LeadingOf(digits, unit, dec);
    assert (digits + unit)[..|digits|] == digits && (digits + unit)[|digits|..] == unit;
  }

  lemma OneDigit(c: char, dec: char -> Option<nat>)
    requires Decimal(dec) && dec(c) == Some(5)
    ensures Usable([c] + "s", dec) && Leading([c] + "s", dec) == 1
  {
    hide FloatLimit, Decimal;
    MatchOf([c], "s", dec);
    LeadingOf([c], "s", dec);
    assert [c][..0] == "";
    assert ValueOf([c], dec) == 5;
    assert UnitMicros("s") == Some(1_000_000) && ("s" == "us") == false;
  }

  lemma DefaultIsUsable(dec: char -> Option<nat>)
    requires Decimal(dec)
    ensures Usable(DEFAULT_TIMEOUT, dec) && Leading(DEFAULT_TIMEOUT, dec) == 1
  {
    hide Usable;
    assert IsDigit('5');
    OneDigit('5', dec);
    assert ['5'] + "s" == DEFAULT_TIMEOUT;
  }

  /**
   The sanitiser raises exactly on a numeral too long for `int` or, in microseconds, too large for
   `float`. Otherwise the timeout used is a number and a unit, more than zero and at most INT_MAX
   milliseconds; a setting that is already so is kept, and only such; sanitising again changes
   nothing.
   */
  lemma TimeoutIsUsable(raw: Option<string>, dec: char -> Option<nat>)
    requires Decimal(dec)
    ensures var r := SanitisedTimeout(raw, dec);
      && (r.Err? <==> raw.Some? && Crashes(raw.value, dec))
      && (r.Ok? ==> Usable(r.value, dec) && SanitisedTimeout(Some(r.value), dec) == r)
      && (raw.Some? ==> (r == Ok(raw.value) <==> Usable(raw.value, dec)))
  {
    hide Match, CrashOf, InRange, Decimal;
    DefaultIsUsable(dec);
  }

  /** The whole numbers of a unit that make more than zero and no more than INT_MAX milliseconds. */
  ghost predicate KeptUpTo(digits: string, unit: string, most: nat, dec: char -> Option<nat>)
    requires forall i :: 0 <= i < |digits| ==> dec(digits[i]).Some?
  {
    SanitisedTimeout(Some(digits + unit), dec)
    == Ok(if 0 < ValueOf(digits, dec) <= most then digits + unit else DEFAULT_TIMEOUT)
  }

  /** What each unit allows: the largest count of it that fits into INT_MAX milliseconds. */
  lemma TimeoutKeepsExactly(digits: string, dec: char -> Option<nat>)
    requires Decimal(dec) && digits != [] && |digits| <= MAX_STR_DIGITS
    requires forall i :: 0 <= i < |digits| ==> dec(digits[i]).Some?
    ensures KeptUpTo(digits, "", 2147483647, dec) && KeptUpTo(digits, "ms", 2147483647, dec)
    ensures KeptUpTo(digits, "s", 2147483, dec) && KeptUpTo(digits, "min", 35791, dec)
    ensures KeptUpTo(digits, "h", 596, dec) && KeptUpTo(digits, "d", 24, dec)
    ensures ValueOf(digits, dec) < FloatLimit() ==> KeptUpTo(digits, "us", 2147483647000, dec)
  {
    hide ValueOf, Decimal, FloatLimit, KeptUpTo;
    UnitKeeps(digits, "", 2147483647, 1000, dec);
    UnitKeeps(digits, "ms", 2147483647, 1000, dec);
    UnitKeeps(digits, "s", 2147483, 1000000, dec);
    UnitKeeps(digits, "min", 35791, 60000000, dec);
    UnitKeeps(digits, "h", 596, 3600000000, dec);
    UnitKeeps(digits, "d", 24, 86400000000, dec);
    if ValueOf(digits, dec) < FloatLimit() { UnitKeeps(digits, "us", 2147483647000, 1, dec); }
  }

  lemma UnitKeeps(digits: string, unit: string, most: nat, micros: nat, dec: char -> Option<nat>)
    requires Decimal(dec) && digits != [] && |digits| <= MAX_STR_DIGITS && UnitMicros(unit) == Some(micros)
    requires forall i :: 0 <= i < |digits| ==> dec(digits[i]).Some?
    requires unit == "us" ==> ValueOf(digits, dec) < FloatLimit()
    requires most * micros <= MAX_MICROS < (most + 1) * micros
    ensures KeptUpTo(digits, unit, most, dec)
  {
    hide ValueOf, Decimal, FloatLimit, UnitMicros;
    MatchOf(digits, unit, dec);
    Fits(ValueOf(digits, dec), most, micros);
  }

  lemma Fits(v: nat, most: nat, micros: nat)
    requires most * micros <= MAX_MICROS < (most + 1) * micros
    ensures 0 < v * micros <= MAX_MICROS <==> 0 < v <= most
  {
    if v <= most {
      assert most * micros == v * micros + (most - v) * micros;
    } else {
      assert v * micros == (most + 1) * micros + (v - most - 1) * micros;
    }
  }

  /** Nothing but ASCII digits and lower-case letters: no quote, no blank, nothing Postgres reads otherwise. */
  predicate IsPlain(s: string) {
    forall i :: 0 <= i < |s| ==> IsDigit(s[i]) || 'a' <= s[i] <= 'z'
  }

  /** The numeral of a setting is written in ASCII digits. */
  predicate AsciiNumeral(s: string, dec: char -> Option<nat>) {
    forall i :: 0 <= i < Leading(s, dec) ==> IsDigit(s[i])
  }

  lemma PlainExactly(s: string, dec: char -> Option<nat>)
    requires Decimal(dec) && Usable(s, dec)
    ensures IsPlain(s) <==> AsciiNumeral(s, dec)
  {
    hide UnitMicros, ValueOf, CrashOf, InRange;
    var k := Leading(s, dec);
    forall i | 0 <= i < |s|
      ensures i >= k ==> 'a' <= s[i] <= 'z'
      ensures i < k ==> !('a' <= s[i] <= 'z')
    {
      if i >= k { UnitIsLetters(s[k..], i - k, dec); } else { LetterIsNoDigit(s[i], dec); }
    }
  }

  lemma LetterIsNoDigit(c: char, dec: char -> Option<nat>)
    requires Decimal(dec) && dec(c).Some?
    ensures !('a' <= c <= 'z')
  {
    assert 'a' <= c <= 'z' ==> c as int < 128 && !IsDigit(c);
  }

  /**
   What reaches the SQL text is plain if and only if the setting is not usable (so that the
   default is taken) or spells its number in ASCII digits: `\d` and `int` accept any script.
   */
  lemma TimeoutIsPlainExactly(raw: Option<string>, dec: char -> Option<nat>)
    requires Decimal(dec) && SanitisedTimeout(raw, dec).Ok?
    ensures IsPlain(SanitisedTimeout(raw, dec).value) <==>
            (raw.Some? && Usable(raw.value, dec) ==> AsciiNumeral(raw.value, dec))
  {
    hide Usable, SanitisedTimeout, AsciiNumeral, IsPlain, Decimal;
    TimeoutIsUsable(raw, dec);
    if raw.Some? && Usable(raw.value, dec) {
      PlainExactly(raw.value, dec);
    } else {
      DefaultIsTaken(raw, dec);
    }
  }

  lemma DefaultIsTaken(raw: Option<string>, dec: char -> Option<nat>)
    requires raw.Some? ==> !Usable(raw.value, dec)
    requires SanitisedTimeout(raw, dec).Ok?
    ensures IsPlain(SanitisedTimeout(raw, dec).value)
  {
    hide Match, CrashOf, InRange;
  }

  /** ARABIC-INDIC DIGIT FIVE and an `s`: taken for five seconds and handed to Postgres as it is. */
  lemma ForeignDigitPasses(dec: char -> Option<nat>)
    requires Decimal(dec) && dec('\U{665}') == Some(5)
    ensures SanitisedTimeout(Some("\U{665}s"), dec) == Ok("\U{665}s") && !IsPlain("\U{665}s")
  {
    hide Usable, SanitisedTimeout, Decimal;
    var s: string := "\U{665}s";
    assert ['\U{665}'] + "s" == s;
    OneDigit('\U{665}', dec);
    TimeoutIsUsable(Some(s), dec);
    assert s[0] == '\U{665}' && !IsDigit(s[0]);
  }

  /** A numeral of more than 4300 digits, leading zeros included, raises whatever it is worth. */
  lemma LongNumeralRaises(digits: string, unit: string, dec: char -> Option<nat>)
    requires Decimal(dec) && UnitMicros(unit).Some? && |digits| > MAX_STR_DIGITS
    requires forall i :: 0 <= i < |digits| ==> dec(digits[i]).Some?
    ensures SanitisedTimeout(Some(digits + unit), dec) == Err(TooManyDigits)
  {
    hide UnitMicros, ValueOf, Decimal, FloatLimit;
    MatchOf(digits, unit, dec);
  }

  /** A microsecond count beyond the range of `float` raises where any other unit falls back. */
  lemma HugeMicrosRaise(digits: string, dec: char -> Option<nat>)
    requires Decimal(dec) && digits != [] && |digits| <= MAX_STR_DIGITS
    requires (forall i :: 0 <= i < |digits| ==> dec(digits[i]).Some?) && ValueOf(digits, dec) >= FloatLimit()
    ensures SanitisedTimeout(Some(digits + "us"), dec) == Err(TooLargeForFloat)
  {
    hide ValueOf, Decimal, FloatLimit;
    MatchOf(digits, "us", dec);
  }

  // ----- transactions and locks -----

  datatype Stmt = Stmt(table: string, sql: string)

  /** How a statement can end. All but the last two are logged and swallowed; an interrupt is not an `Exception`. */
  datatype Ending = NoConnection | LockTimeout | Failed | Applied | Interrupted

  datatype Attempt = Attempt(stmt: Stmt, start: real, finish: real, ending: Ending)

  datatype Event = Begin | Waits(table: string) | Holds(table: string) | Ends

  /** Statements run in one transaction: the first that does not succeed is the last that is tried. */
  function Work(group: seq<Attempt>): seq<Event> {
    if group == [] then []
    else
      var table := group[0].stmt.table;
      match group[0].ending
      case NoConnection => []
      case LockTimeout => [Waits(table)]
      case Interrupted => [Waits(table)]
      case Failed => [Waits(table), Holds(table)]
      case Applied => [Waits(table), Holds(table)] + Work(group[1..])
  }

  /** `with engine.begin()`: whatever happens inside, the transaction ends with the block. */
  function Transaction(group: seq<Attempt>): seq<Event> {
    if group != [] && group[0].ending.NoConnection? then [] else [Begin] + Work(group) + [Ends]
  }

  function Log(groups: seq<seq<Attempt>>): seq<Event> {
    if groups == [] then [] else Log(groups[..|groups| - 1]) + Transaction(groups[|groups| - 1])
  }

  /** Tables whose locks are held after an event; the end of a transaction gives them all back. */
  function After(held: set<string>, e: Event): set<string> {
    if e.Holds? then held + {e.table} else if e.Ends? then {} else held
  }

  function HeldAfter(held: set<string>, log: seq<Event>): set<string>
    decreases |log|
  {
    if log == [] then held else HeldAfter(After(held, log[0]), log[1..])
  }

  /** No event of the log waits for one table's lock while another's is held. */
  predicate Unchained(held: set<string>, log: seq<Event>)
    decreases |log|
  {
    log == [] || ((log[0].Waits? ==> held <= {log[0].table}) && Unchained(After(held, log[0]), log[1..]))
  }

  lemma {:induction false} Concat(held: set<string>, a: seq<Event>, b: seq<Event>)
    ensures HeldAfter(held, a + b) == HeldAfter(HeldAfter(held, a), b)
    ensures Unchained(held, a + b) <==> Unchained(held, a) && Unchained(HeldAfter(held, a), b)
    decreases |a|
  {
    if a == [] {
      assert a + b == b;
    } else {
      assert (a + b)[1..] == a[1..] + b;
      Concat(After(held, a[0]), a[1..], b);
    }
  }

  /** The statements of a transaction that get as far as asking for their lock. */
  function Reached(group: seq<Attempt>): nat {
    if group == [] || group[0].ending.NoConnection? then 0
    else if group[0].ending.Applied? then 1 + Reached(group[1..]) else 1
  }

  lemma {:induction false} ReachedBound(group: seq<Attempt>)
    ensures Reached(group) <= |group|
  {
    if group != [] { ReachedBound(group[1..]); }
  }

  /** All statements that ask for a lock ask for the same table, `table` if one is already held. */
  ghost predicate OneTable(group: seq<Attempt>, held: set<string>) {
    ReachedBound(group);
    && (forall i :: 0 <= i < Reached(group) ==> held <= {group[i].stmt.table})
    && (forall i, j :: 0 <= i < j < Reached(group) ==> group[i].stmt.table == group[j].stmt.table)
  }

  lemma {:induction false} WorkExactly(group: seq<Attempt>, held: set<string>)
    ensures Unchained(held, Work(group)) <==> OneTable(group, held)
    decreases |group|
  {
    if group != [] && !group[0].ending.NoConnection? {
      var table, rest := group[0].stmt.table, group[1..];
      var head := [Waits(table)] + (if group[0].ending.Applied? || group[0].ending.Failed? then [Holds(table)] else []);
      HeadWork(held, table, head);
      ReachedBound(group);
      if group[0].ending.Applied? {
        Concat(held, head, Work(rest));
        WorkExactly(rest, held + {table});
        OneTableCons(group, held);
      }
    }
  }

  lemma HeadWork(held: set<string>, table: string, head: seq<Event>)
    requires head == [Waits(table)] || head == [Waits(table), Holds(table)]
    ensures Unchained(held, head) <==> held <= {table}
    ensures head == [Waits(table), Holds(table)] ==> HeldAfter(held, head) == held + {table}
  {
    Concat(held, [Waits(table)], head[1..]);
    assert head == [Waits(table)] + head[1..];
    assert [Waits(table)][1..] == [];
    if |head| == 2 {
      assert head[1..] == [Holds(table)];
      Single(held, Holds(table));
    }
  }

  lemma OneTableCons(group: seq<Attempt>, held: set<string>)
    requires group != [] && group[0].ending.Applied?
    ensures OneTable(group, held) <==>
            held <= {group[0].stmt.table} && OneTable(group[1..], held + {group[0].stmt.table})
  {
    var rest, table := group[1..], group[0].stmt.table;
    ReachedBound(group);
    ReachedBound(rest);
    assert forall i :: 0 <= i < |rest| ==> rest[i] == group[i + 1];
    if OneTable(group, held) {
      assert held <= {group[0].stmt.table};
      forall i | 0 <= i < Reached(rest) ensures held + {table} <= {rest[i].stmt.table} {
        assert group[0].stmt.table == group[i + 1].stmt.table;
      }
      forall i, j | 0 <= i < j < Reached(rest) ensures rest[i].stmt.table == rest[j].stmt.table {
        assert group[i + 1].stmt.table == group[j + 1].stmt.table;
      }
    }
    if held <= {table} && OneTable(rest, held + {table}) {
      forall i | 0 < i < Reached(group) ensures group[i].stmt.table == table {
        assert held + {table} <= {rest[i - 1].stmt.table};
        assert table in held + {table};
      }
    }
  }

  lemma TransactionExactly(group: seq<Attempt>)
    ensures Unchained({}, Transaction(group)) <==> OneTable(group, {})
    ensures HeldAfter({}, Transaction(group)) == {}
  {
    hide Work, OneTable;
    if group != [] && group[0].ending.NoConnection? {
      NothingReached(group);
    } else {
      Concat({}, [Begin], Work(group) + [Ends]);
      assert [Begin] + Work(group) + [Ends] == [Begin] + (Work(group) + [Ends]);
      Concat({}, Work(group), [Ends]);
      Single({}, Begin);
      Single(HeldAfter({}, Work(group)), Ends);
      WorkExactly(group, {});
    }
  }

  lemma Single(held: set<string>, e: Event)
    requires !e.Waits?
    ensures Unchained(held, [e]) && HeldAfter(held, [e]) == After(held, e)
  {
    assert [e][1..] == [];
  }

  lemma NothingReached(group: seq<Attempt>)
    requires group != [] && group[0].ending.NoConnection?
    ensures OneTable(group, {})
  {
  }

  /**
   Over every series of transactions, of any sizes and endings: locks are never chained if and
   only if no transaction asks for the locks of two different tables, and none is left held.
   */
  lemma {:induction false} ChainsExactly(groups: seq<seq<Attempt>>)
    ensures Unchained({}, Log(groups)) <==> forall k :: 0 <= k < |groups| ==> OneTable(groups[k], {})
    ensures HeldAfter({}, Log(groups)) == {}
  {
    hide OneTable, Transaction, Unchained, HeldAfter;
    if groups == [] {
      NoChains();
    } else {
      var n := |groups| - 1;
      ChainsExactly(groups[..n]);
      TransactionExactly(groups[n]);
      Concat({}, Log(groups[..n]), Transaction(groups[n]));
      assert forall k :: 0 <= k < n ==> groups[..n][k] == groups[k];
    }
  }

  lemma NoChains()
    ensures Unchained({}, []) && HeldAfter({}, []) == {}
  {
  }

  /** One statement to a transaction. */
  function Alone(attempts: seq<Attempt>): seq<seq<Attempt>> {
    seq(|attempts|, i requires 0 <= i < |attempts| => [attempts[i]])
  }

  /** Over every series of patches: locks are never chained, and none outlives its statement. */
  lemma LocksAreNeverChained(attempts: seq<Attempt>)
    ensures Unchained({}, Log(Alone(attempts))) && HeldAfter({}, Log(Alone(attempts))) == {}
  {
    hide Unchained, HeldAfter, Log;
    ChainsExactly(Alone(attempts));
    forall k | 0 <= k < |attempts| ensures OneTable(Alone(attempts)[k], {}) { OneIsOneTable(attempts[k]); }
  }

  lemma OneIsOneTable(a: Attempt)
    ensures OneTable([a], {})
  {
    ReachedBound([a]);
  }

  /** Sharing one transaction would chain them: the second table is waited for with the first still held. */
  lemma SharedTransactionChains(a: Attempt, b: Attempt)
    requires a.stmt.table != b.stmt.table && a.ending.Applied? && !b.ending.NoConnection?
    ensures !Unchained({}, Log([[a, b]]))
  {
    hide Unchained, Log;
    ChainsExactly([[a, b]]);
    var g := [a, b];
    ReachedBound(g);
    assert g[1..] == [b];
    assert Reached([b]) == 1 by { assert [b][1..] == []; }
    assert Reached(g) == 2;
    assert g[0].stmt.table != g[1].stmt.table;
    assert !OneTable(g, {});
    assert !OneTable([[a, b]][0], {});
  }

  // ----- the loops -----

  /** Step by step: time spent before a statement is considered, time the statement takes, how it ends. */
  datatype World = World(idle: nat -> real, took: nat -> real, ending: nat -> Ending)

  ghost predicate Sane(w: World, limit: real) {
    forall k :: w.idle(k) >= 0.0 && 0.0 <= w.took(k) <= limit
  }

  /** `aborted`: an interrupt is on its way out of `init_db`. */
  datatype Boot = Boot(now: real, step: nat, attempts: seq<Attempt>, aborted: bool)

  /** A loop over statements: give up when the deadline has passed, carry on whatever a statement did, short of an interrupt. */
  function Loop(b: Boot, stmts: seq<Stmt>, deadline: Float, w: World): Boot
    decreases |stmts|
  {
    if stmts == [] || b.aborted then b else
      var t := b.now + w.idle(b.step);
      if !Less(t, deadline) then Boot(t, b.step + 1, b.attempts, false)
      else Loop(Tried(b, stmts[0], t, w), stmts[1..], deadline, w)
  }

  function Tried(b: Boot, stmt: Stmt, t: real, w: World): Boot {
    var finish, ending := t + w.took(b.step), w.ending(b.step);
    Boot(finish, b.step + 1, b.attempts + [Attempt(stmt, t, finish, ending)], ending.Interrupted?)
  }

  /** What inspecting the schema found to do, if it did not fail, and how long that took. */
  datatype Inspection = Inspection(took: real, found: Option<seq<Stmt>>)

  function Ownership(b: Boot, i: Inspection, deadline: Float, w: World): Boot {
    if b.aborted then b else
      var after := b.(now := b.now + i.took);
      if i.found.None? then after else Loop(after, i.found.value, deadline, w)
  }

  function Papers(b: Boot, postgres: bool, stmts: seq<Stmt>, deadline: Float, w: World): Boot {
    if postgres then Loop(b, stmts, deadline, w) else b
  }

  /** `init_db`: both loops spend from the one deadline. */
  function Init(b: Boot, postgres: bool, stmts: seq<Stmt>, i: Inspection, budget: Float, w: World): Boot {
    var deadline := Plus(b.now, budget);
    Ownership(Papers(b, postgres, stmts, deadline, w), i, deadline, w)
  }

  function Start(now: real): Boot {
    Boot(now, 0, [], false)
  }

  /**
   Each attempt starts in time and runs within its limit, each after the one before has ended,
   and none has ended later than now.
   */
  ghost predicate InTime(b: Boot, deadline: real, limit: real) {
    && (forall i :: 0 <= i < |b.attempts| ==>
          b.attempts[i].start < deadline && b.attempts[i].start <= b.attempts[i].finish <= b.attempts[i].start + limit)
    && (forall i, j :: 0 <= i < j < |b.attempts| ==> b.attempts[i].finish <= b.attempts[j].start)
    && (forall i :: 0 <= i < |b.attempts| ==> b.attempts[i].finish <= b.now)
  }

  lemma TriedInTime(b: Boot, stmt: Stmt, t: real, deadline: real, w: World, limit: real)
    requires Sane(w, limit) && InTime(b, deadline, limit) && b.now <= t < deadline
    ensures InTime(Tried(b, stmt, t, w), deadline, limit)
  {
  }

  lemma {:induction false} LoopInTime(b: Boot, stmts: seq<Stmt>, deadline: real, w: World, limit: real)
    requires Sane(w, limit) && InTime(b, deadline, limit)
    ensures InTime(Loop(b, stmts, Finite(deadline), w), deadline, limit)
    decreases |stmts|
  {
    hide InTime;
    if stmts != [] && !b.aborted {
      var t := b.now + w.idle(b.step);
      if t < deadline {
        TriedInTime(b, stmts[0], t, deadline, w, limit);
        LoopInTime(Tried(b, stmts[0], t, w), stmts[1..], deadline, w, limit);
      } else {
        WaitInTime(b, Boot(t, b.step + 1, b.attempts, false), deadline, limit);
      }
    }
  }

  lemma WaitInTime(b: Boot, c: Boot, deadline: real, limit: real)
    requires InTime(b, deadline, limit) && c.attempts == b.attempts && c.now >= b.now
    ensures InTime(c, deadline, limit)
  {
  }

  /**
   The aggregate bound: every statement starts before the deadline and ends before deadline
   plus limit, and only the last can end past the deadline.
   */
  lemma InitIsBounded(now: real, postgres: bool, stmts: seq<Stmt>, i: Inspection, budget: real, w: World, limit: real)
    requires Sane(w, limit) && i.took >= 0.0
    ensures var a := Init(Start(now), postgres, stmts, i, Finite(budget), w).attempts;
      && (forall k :: 0 <= k < |a| ==> a[k].start < now + budget && a[k].finish < now + budget + limit)
      && (forall k :: 0 <= k < |a| - 1 ==> a[k].finish < now + budget)
  {
    hide Loop, Sane, InTime;
    var b := Start(now);
    var deadline := now + budget;
    assert InTime(b, deadline, limit) by { EmptyInTime(b, deadline, limit); }
    LoopInTime(b, stmts, deadline, w, limit);
    var p := Papers(b, postgres, stmts, Finite(deadline), w);
    var q := p.(now := p.now + i.took);
    WaitInTime(p, q, deadline, limit);
    if i.found.Some? { LoopInTime(q, i.found.value, deadline, w, limit); }
    InTimeSays(Init(b, postgres, stmts, i, Finite(budget), w), deadline, limit);
  }

  lemma EmptyInTime(b: Boot, deadline: real, limit: real)
    requires b.attempts == []
    ensures InTime(b, deadline, limit)
  {
  }

  lemma InTimeSays(b: Boot, deadline: real, limit: real)
    requires InTime(b, deadline, limit)
    ensures forall k :: 0 <= k < |b.attempts| ==> b.attempts[k].start < deadline && b.attempts[k].finish < deadline + limit
    ensures forall k :: 0 <= k < |b.attempts| - 1 ==> b.attempts[k].finish < deadline
  {
    forall k | 0 <= k < |b.attempts| - 1 ensures b.attempts[k].finish < deadline {
      assert b.attempts[k].finish <= b.attempts[|b.attempts| - 1].start;
    }
  }

  // ----- a failure stops nothing -----

  function Timing(attempts: seq<Attempt>): seq<(Stmt, real, real)> {
    seq(|attempts|, i requires 0 <= i < |attempts| => (attempts[i].stmt, attempts[i].start, attempts[i].finish))
  }

  /** Same clock and same statements, whatever the endings were. */
  ghost predicate Alike(b: Boot, c: Boot) {
    b.now == c.now && b.step == c.step && b.aborted == c.aborted && Timing(b.attempts) == Timing(c.attempts)
  }

  /** Two worlds that differ at most in which statements fail, and how. */
  ghost predicate SameTimes(v: World, w: World) {
    forall k :: v.idle(k) == w.idle(k) && v.took(k) == w.took(k)
      && (v.ending(k).Interrupted? <==> w.ending(k).Interrupted?)
  }

  lemma TriedAlike(b: Boot, c: Boot, stmt: Stmt, t: real, v: World, w: World)
    requires Alike(b, c) && SameTimes(v, w)
    ensures Alike(Tried(b, stmt, t, v), Tried(c, stmt, t, w))
  {
    TimingNext(b.attempts, Attempt(stmt, t, t + v.took(b.step), v.ending(b.step)));
    TimingNext(c.attempts, Attempt(stmt, t, t + w.took(c.step), w.ending(c.step)));
    hide Timing;
  }

  lemma TimingNext(attempts: seq<Attempt>, a: Attempt)
    ensures Timing(attempts + [a]) == Timing(attempts) + [(a.stmt, a.start, a.finish)]
  {
  }

  lemma {:induction false} LoopAlike(b: Boot, c: Boot, stmts: seq<Stmt>, deadline: Float, v: World, w: World)
    requires Alike(b, c) && SameTimes(v, w)
    ensures Alike(Loop(b, stmts, deadline, v), Loop(c, stmts, deadline, w))
    decreases |stmts|
  {
    hide Tried, Timing;
    if stmts != [] && !b.aborted {
      var t := b.now + v.idle(b.step);
      assert t == c.now + w.idle(c.step);
      if Less(t, deadline) {
        TriedAlike(b, c, stmts[0], t, v, w);
        LoopAlike(Tried(b, stmts[0], t, v), Tried(c, stmts[0], t, w), stmts[1..], deadline, v, w);
      }
    }
  }

  /** Which statements run, and when, does not depend on which of them fail, or how; only an interrupt changes it. */
  lemma FailuresStopNothing(b: Boot, postgres: bool, stmts: seq<Stmt>, i: Inspection, budget: Float, v: World, w: World)
    requires SameTimes(v, w)
    ensures Timing(Init(b, postgres, stmts, i, budget, v).attempts) == Timing(Init(b, postgres, stmts, i, budget, w).attempts)
  {
    hide Loop, SameTimes, Timing;
    var deadline := Plus(b.now, budget);
    LoopAlike(b, b, stmts, deadline, v, w);
    var p, q := Papers(b, postgres, stmts, deadline, v), Papers(b, postgres, stmts, deadline, w);
    if i.found.Some? {
      LoopAlike(p.(now := p.now + i.took), q.(now := q.now + i.took), i.found.value, deadline, v, w);
    }
  }

  /** Attempt `n + j` is statement `j`: begun after the pause before it, as long and ending as the world has it. */
  ghost predicate Entry(a: seq<Attempt>, n: nat, from: real, stmts: seq<Stmt>, step: nat, j: nat, deadline: Float, w: World)
    requires n + j < |a| && j < |stmts|
  {
    var it := a[n + j];
    && it.stmt == stmts[j] && it.start == (if j == 0 then from else a[n + j - 1].finish) + w.idle(step + j)
    && it.finish == it.start + w.took(step + j) && it.ending == w.ending(step + j)
    && (deadline.Infinite? || (deadline.Finite? && it.start < deadline.value))
  }

  /** A loop from `b` to `c` that got through `k` statements. */
  ghost predicate GotThrough(b: Boot, c: Boot, stmts: seq<Stmt>, k: nat, deadline: Float, w: World) {
    && k <= |stmts| && |c.attempts| == |b.attempts| + k && c.attempts[..|b.attempts|] == b.attempts
    && (forall j :: 0 <= j < k ==> Entry(c.attempts, |b.attempts|, b.now, stmts, b.step, j, deadline, w))
    && (k < |stmts| && !c.aborted ==>
          && !deadline.Infinite? && (deadline.Finite? ==> c.now >= deadline.value)
          && c.now == (if k == 0 then b.now else c.attempts[|b.attempts| + k - 1].finish) + w.idle(b.step + k))
    && (c.aborted <==> b.aborted || (k > 0 && c.attempts[|b.attempts| + k - 1].ending.Interrupted?))
  }

  /**
   Statements are taken in order, each begun when the one before has ended and the pause is over,
   and one is left out only once the deadline has passed or an interrupt struck.
   */
  lemma {:induction false} LoopTakes(b: Boot, stmts: seq<Stmt>, deadline: Float, w: World) returns (k: nat)
    ensures GotThrough(b, Loop(b, stmts, deadline, w), stmts, k, deadline, w)
    ensures b.aborted ==> k == 0
    decreases |stmts|
  {
    k := 0;
    if stmts != [] && !b.aborted {
      var t := b.now + w.idle(b.step);
      if Less(t, deadline) {
        k := LoopTakes(Tried(b, stmts[0], t, w), stmts[1..], deadline, w);
        TakesNext(b, Loop(b, stmts, deadline, w), stmts, k, deadline, w);
        k := k + 1;
      }
    }
  }

  lemma TakesNext(b: Boot, c: Boot, stmts: seq<Stmt>, k: nat, deadline: Float, w: World)
    requires stmts != [] && !b.aborted && Less(b.now + w.idle(b.step), deadline)
    requires var d := Tried(b, stmts[0], b.now + w.idle(b.step), w);
             GotThrough(d, c, stmts[1..], k, deadline, w) && (d.aborted ==> k == 0)
    ensures GotThrough(b, c, stmts, k + 1, deadline, w)
  {
    var d, n, a := Tried(b, stmts[0], b.now + w.idle(b.step), w), |b.attempts|, c.attempts;
    assert a[..n] == a[..n + 1][..n];
    assert d.attempts == a[..n + 1];
    assert a[n] == d.attempts[n];
    forall j | 0 <= j < k + 1 ensures Entry(a, n, b.now, stmts, b.step, j, deadline, w) {
      if j > 0 { assert Entry(a, n + 1, d.now, stmts[1..], d.step, j - 1, deadline, w); }
    }
  }

  /**
   The whole boot: on Postgres the listed statements, on the deadline taken at the start; then,
   unless an interrupt struck, what the inspection found, on what is left of the same deadline.
   */
  lemma {:induction false} InitTakes(b: Boot, postgres: bool, stmts: seq<Stmt>, i: Inspection, budget: Float, w: World)
      returns (mid: Boot, k: nat, m: nat)
    requires !b.aborted
    ensures var deadline := if budget.Finite? then Finite(b.now + budget.value) else budget;
            var end := Init(b, postgres, stmts, i, budget, w);
            && GotThrough(b, mid, if postgres then stmts else [], k, deadline, w)
            && (mid.aborted ==> end == mid)
            && (!mid.aborted && i.found.None? ==> end == mid.(now := mid.now + i.took))
            && (!mid.aborted && i.found.Some? ==>
                  GotThrough(mid.(now := mid.now + i.took), end, i.found.value, m, deadline, w))
  {
    hide Loop, GotThrough, Less;
    var deadline := Plus(b.now, budget);
    mid := Papers(b, postgres, stmts, deadline, w);
    m := 0;
    if postgres {
      k := LoopTakes(b, stmts, deadline, w);
    } else {
      LoopNothing(b, deadline, w);
      k := LoopTakes(b, [], deadline, w);
    }
    if !mid.aborted && i.found.Some? {
      m := LoopTakes(mid.(now := mid.now + i.took), i.found.value, deadline, w);
    }
  }

  /** Nothing was tried after an interrupt. */
  ghost predicate InterruptLast(b: Boot) {
    forall k :: 0 <= k < |b.attempts| && b.attempts[k].ending.Interrupted? ==> b.aborted && k == |b.attempts| - 1
  }

  lemma TriedInterrupt(b: Boot, stmt: Stmt, t: real, w: World)
    requires InterruptLast(b) && !b.aborted
    ensures InterruptLast(Tried(b, stmt, t, w))
  {
    var c := Tried(b, stmt, t, w);
    assert forall k :: 0 <= k < |b.attempts| ==> c.attempts[k] == b.attempts[k];
  }

  /** An interrupt ends the loop, and so the boot. */
  lemma {:induction false} InterruptIsLast(b: Boot, stmts: seq<Stmt>, deadline: Float, w: World)
    requires InterruptLast(b)
    ensures InterruptLast(Loop(b, stmts, deadline, w))
    decreases |stmts|
  {
    hide InterruptLast, Tried;
    if stmts != [] && !b.aborted {
      var t := b.now + w.idle(b.step);
      if Less(t, deadline) {
        TriedInterrupt(b, stmts[0], t, w);
        InterruptIsLast(Tried(b, stmts[0], t, w), stmts[1..], deadline, w);
      } else {
        WaitedInterrupt(b, Boot(t, b.step + 1, b.attempts, false));
      }
    }
  }

  lemma WaitedInterrupt(b: Boot, c: Boot)
    requires InterruptLast(b) && c.attempts == b.attempts && c.aborted == b.aborted
    ensures InterruptLast(c)
  {
  }

  /** An infinite budget bounds nothing: short of an interrupt every statement runs, however long each takes. */
  lemma InfiniteBudgetRunsEverything(b: Boot, stmts: seq<Stmt>, w: World)
    requires !b.aborted && forall k :: !w.ending(k).Interrupted?
    ensures |Loop(b, stmts, Infinite, w).attempts| == |b.attempts| + |stmts|
    ensures Loop(b, stmts, Infinite, w).now >= b.now + Spent(b.step, |stmts|, w)
    decreases |stmts|
  {
    if stmts != [] {
      var t := b.now + w.idle(b.step);
      InfiniteBudgetRunsEverything(Tried(b, stmts[0], t, w), stmts[1..], w);
    }
  }

  /** The time the next `n` statements take, with the pauses before them. */
  function Spent(step: nat, n: nat, w: World): real
    decreases n
  {
    if n == 0 then 0.0 else w.idle(step) + w.took(step) + Spent(step + 1, n - 1, w)
  }

  /** A budget that reads as NaN lets no statement run, on any schema. */
  lemma NaNBudgetSkipsEverything(b: Boot, postgres: bool, stmts: seq<Stmt>, i: Inspection, w: World)
    ensures Init(b, postgres, stmts, i, NaN, w).attempts == b.attempts
  {
  }

  // ----- the boot process -----

  function CountApplied(attempts: seq<Attempt>): nat {
    if attempts == [] then 0
    else CountApplied(attempts[..|attempts| - 1]) + if attempts[|attempts| - 1].ending.Applied? then 1 else 0
  }

  lemma {:induction false} CountNext(attempts: seq<Attempt>, a: Attempt)
    ensures CountApplied(attempts + [a]) == CountApplied(attempts) + if a.ending.Applied? then 1 else 0
  {
    assert (attempts + [a])[..|attempts|] == attempts;
  }

  /** The count is that of the attempts that took effect. */
  lemma {:induction false} AppliedAre(attempts: seq<Attempt>)
    ensures CountApplied(attempts) == |set k: nat | k < |attempts| && attempts[k].ending == Applied|
  {
    var all := set k: nat | k < |attempts| && attempts[k].ending == Applied;
    if attempts == [] {
      assert all == {};
    } else {
      var n: nat := |attempts| - 1;
      AppliedAre(attempts[..n]);
      var was := set k: nat | k < n && attempts[..n][k].ending == Applied;
      assert all == if attempts[n].ending == Applied then was + {n} else was;
    }
  }

  lemma {:induction false} LoopUnfolds(b: Boot, stmts: seq<Stmt>, deadline: Float, w: World)
    requires stmts != []
    ensures var t := b.now + w.idle(b.step);
      b.aborted || Loop(b, stmts, deadline, w) ==
        if Less(t, deadline) then Loop(Tried(b, stmts[0], t, w), stmts[1..], deadline, w)
        else Boot(t, b.step + 1, b.attempts, false)
    ensures b.aborted ==> Loop(b, stmts, deadline, w) == b
  {
  }

  lemma LoopNothing(b: Boot, deadline: Float, w: World)
    ensures Loop(b, [], deadline, w) == b
  {
  }

  lemma {:induction false} LogNext(attempts: seq<Attempt>, a: Attempt)
    ensures Log(Alone(attempts + [a])) == Log(Alone(attempts)) + Transaction([a])
  {
    hide Transaction;
    assert Alone(attempts + [a])[..|attempts|] == Alone(attempts);
  }

  class Booting {
    var now: real
    var step: nat
    var attempts: seq<Attempt>
    var aborted: bool
    var log: seq<Event>

    ghost predicate Valid()
      reads this
    {
      log == Log(Alone(attempts))
    }

    function State(): Boot
      reads this
    {
      Boot(now, step, attempts, aborted)
    }

    constructor (start: real)
      ensures Valid() && State() == Start(start)
    {
      now, step, attempts, aborted, log := start, 0, [], false, [];
    }

    /** `_apply_patch_statement`: opens, waits, runs, and in every case ends its own transaction. */
    method Apply(stmt: Stmt, w: World) returns (applied: bool)
      requires Valid()
      modifies this
      ensures Valid() && State() == Tried(old(State()), stmt, old(now), w)
      ensures applied <==> w.ending(old(step)).Applied?
    {
      hide Log, Alone;
      var start, ending := now, w.ending(step);
      now := now + w.took(step);
      var attempt := Attempt(stmt, start, now, ending);
      var events := Events(attempt);
      LogNext(attempts, attempt);
      log := log + events;
      attempts := attempts + [attempt];
      step := step + 1;
      aborted := ending.Interrupted?;
      applied := ending.Applied?;
    }

    /** What the statement does to locks, in order. */
    static method Events(a: Attempt) returns (events: seq<Event>)
      ensures events == Transaction([a])
      ensures a.ending.NoConnection? ==> events == []
      ensures a.ending.LockTimeout? || a.ending.Interrupted? ==> events == [Begin, Waits(a.stmt.table), Ends]
      ensures a.ending.Failed? || a.ending.Applied? ==>
                events == [Begin, Waits(a.stmt.table), Holds(a.stmt.table), Ends]
    {
      assert [a][1..] == [] && Work([]) == [];
      if a.ending.NoConnection? {
        return [];
      }
      events := [Begin] + [Waits(a.stmt.table)];
      if a.ending.Failed? || a.ending.Applied? {
        events := events + [Holds(a.stmt.table)];
        assert Work([a]) == [Waits(a.stmt.table), Holds(a.stmt.table)];
      }
      assert events == [Begin] + Work([a]);
      events := events + [Ends];
    }

    /** One patch loop; how many statements took effect, and how many were not reached. */
    method Patch(stmts: seq<Stmt>, deadline: Float, w: World) returns (applied: nat, skipped: nat)
      requires Valid() && !aborted
      modifies this
      ensures Valid() && State() == Loop(old(State()), stmts, deadline, w)
      ensures skipped + |attempts| == |stmts| + |old(attempts)|
      ensures applied == CountApplied(attempts) - CountApplied(old(attempts))
    {
      hide Loop, Log, Alone, CountApplied, Less;
      var i := 0;
      applied, skipped := 0, 0;
      assert stmts[0..] == stmts;
      while i < |stmts|
        invariant 0 <= i <= |stmts| && Valid() && !aborted
        invariant Loop(State(), stmts[i..], deadline, w) == Loop(old(State()), stmts, deadline, w)
        invariant |attempts| == |old(attempts)| + i
        invariant applied == CountApplied(attempts) - CountApplied(old(attempts))
      {
        LoopUnfolds(State(), stmts[i..], deadline, w);
        ghost var before := attempts;
        now := now + w.idle(step);
        if !Less(now, deadline) {
          skipped := |stmts| - i;
          step := step + 1;
          return;
        }
        var ok := Apply(stmts[i], w);
        CountNext(before, attempts[|before|]);
        assert stmts[i..][1..] == stmts[i + 1..];
        applied := applied + if ok then 1 else 0;
        i := i + 1;
        if aborted {
          skipped := |stmts| - i;
          LoopAborted(State(), stmts[i..], deadline, w);
          return;
        }
      }
      LoopNothing(State(), deadline, w);
      assert stmts[i..] == [];
    }

    /** `_ensure_ownership_columns`, on the deadline it is handed. */
    method EnsureOwnership(i: Inspection, deadline: Float, w: World)
      requires Valid() && !aborted
      modifies this
      ensures Valid() && State() == Ownership(old(State()), i, deadline, w)
    {
      hide Loop, Log, Alone, CountApplied;
      now := now + i.took;
      if i.found.Some? {
        var applied, skipped := Patch(i.found.value, deadline, w);
      }
    }

    /** `init_db`, from the moment the deadline is taken. */
    method InitDb(postgres: bool, stmts: seq<Stmt>, i: Inspection, budget: Float, w: World)
      requires Valid() && !aborted
      modifies this
      ensures Valid() && State() == Init(old(State()), postgres, stmts, i, budget, w)
      ensures Unchained({}, log) && HeldAfter({}, log) == {}
    {
      hide Loop, Log, Alone, CountApplied, Unchained, HeldAfter;
      var deadline := Plus(now, budget);
      if postgres {
        var applied, skipped := Patch(stmts, deadline, w);
      }
      LocksAreNeverChained(attempts);
      if aborted {
        return;
      }
      EnsureOwnership(i, deadline, w);
      LocksAreNeverChained(attempts);
    }
  }

  lemma LoopAborted(b: Boot, stmts: seq<Stmt>, deadline: Float, w: World)
    requires b.aborted
    ensures Loop(b, stmts, deadline, w) == b
  {
  }
}

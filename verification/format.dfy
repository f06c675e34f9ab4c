/** Durations as the panel shows them: at most two leading units. */
module Format {
  import opened Types
  import opened Regex
  import opened ParseTime

  datatype Part = Part(n: nat, unit: string)

  /** The fields the text is cut from. */
  function Fields(d: Time): seq<Part>
    requires d >= 0
  {
    var belowDay := d % DAY;
    var belowHour := belowDay % HOUR;
    [Part(d / DAY, "д"), Part(belowDay / HOUR, "ч"), Part(belowHour / MINUTE, "м"), Part(belowHour % MINUTE / SECOND, "с")]
  }

  /** The first field that is not zero and the one after it. */
  function Leading(all: seq<Part>): seq<Part> {
    if all == [] then []
    else if all[0].n == 0 then Leading(all[1..])
    else if |all| == 1 then all
    else all[..2]
  }

  function Show(p: Part): string {
    Decimal(p.n) + " " + p.unit
  }

  function Joined(parts: seq<Part>): string {
    if parts == [] then "" else if |parts| == 1 then Show(parts[0]) else Show(parts[0]) + " " + Joined(parts[1..])
  }

  /** The panel's text for a duration. */
  function Text(d: Time): string {
    if d < SECOND then "0 с" else Joined(Leading(Fields(d)))
  }

  method HumanDuration(duration: Time) returns (text: string)
    ensures text == Text(duration)
  {
    var d := if duration < 0 then 0 else duration;
    if d < SECOND {
      return "0 с";
    }
    Remainder(d, DAY);
    Remainder(d % DAY, HOUR);
    Remainder(d % DAY % HOUR, MINUTE);
    var days := d / DAY;
    d := d - days * DAY;
    var hours := d / HOUR;
    d := d - hours * HOUR;
    var mins := d / MINUTE;
    d := d - mins * MINUTE;
    var secs := d / SECOND;
    text := FirstTwo([Part(days, "д"), Part(hours, "ч"), Part(mins, "м"), Part(secs, "с")]);
  }

  method FirstTwo(all: seq<Part>) returns (text: string)
    ensures text == Joined(Leading(all))
  {
    var out := [];
    var i := 0;
    while i < |all| && |out| < 2
      invariant 0 <= i <= |all| && |out| <= 2
      invariant Leading(all) == if out == [] then Leading(all[i..])
                                else if |out| == 1 && i < |all| then out + [all[i]]
                                else out
    {
      assert all[i..][1..] == all[i + 1..];
      if all[i].n > 0 || |out| > 0 {
        out := out + [all[i]];
      }
      i := i + 1;
    }
    text := Joined(out);
  }

  // ----- what the text says -----

  function UnitOfLetter(u: string): Time {
    if u == "д" then DAY else if u == "ч" then HOUR else if u == "м" then MINUTE else if u == "с" then SECOND else 0
  }

  function Amount(pair: seq<string>): int {
    if |pair| == 2 && (forall k :: 0 <= k < |pair[0]| ==> IsDigit(pair[0][k]))
    then Value(pair[0]) * UnitOfLetter(pair[1]) else 0
  }

  function Total(pairs: seq<seq<string>>): int {
    if pairs == [] then 0 else Amount(pairs[0]) + Total(pairs[1..])
  }

  /** Reading the text again: each number times the unit behind it. */
  function Reading(text: string): int {
    Total(FindAll(NUM_UNIT, text, 0))
  }

  /** The last unit a text of this size shows. */
  function Grain(d: Time): Time {
    if d >= DAY then HOUR else if d >= HOUR then MINUTE else SECOND
  }

  function ItemOf(p: Part, more: bool): Item {
    Item(Decimal(p.n), " ", p.unit, if more then " " else "")
  }

  predicate Lettered(p: Part) {
    p.unit in {"д", "ч", "м", "с"}
  }

  lemma ItemIsWellFormed(p: Part, more: bool)
    requires Lettered(p)
    ensures WellFormed(ItemOf(p, more)) && PairOf(ItemOf(p, more)) == [Decimal(p.n), p.unit]
    ensures Rendered(ItemOf(p, more)) == Show(p) + if more then " " else ""
  {
    assert Head("") == "" && Head(" ") == "";
    assert p.unit + "" == p.unit;
    assert All(p.unit, Letter);
    assert Show(p) + "" == Show(p);
  }

  lemma AmountOfPart(p: Part)
    ensures Amount([Decimal(p.n), p.unit]) == p.n * UnitOfLetter(p.unit)
  {
    DecimalValue(p.n);
  }

  lemma ReadsOne(p: Part)
    requires Lettered(p)
    ensures Reading(Show(p)) == p.n * UnitOfLetter(p.unit)
  {
    var it := ItemOf(p, false);
    ItemIsWellFormed(p, false);
    OneItem(it);
    ReadsItems(Show(p), [it]);
    OneTotal(PairOf(it));
    AmountOfPart(p);
  }

  lemma ReadsItems(text: string, items: seq<Item>)
    requires text == Render(items) && forall k :: 0 <= k < |items| ==> WellFormed(items[k])
    ensures Reading(text) == Total(PairsOf(items))
  {
    assert text[0..] == "" + Render(items);
    ScanRender(text, 0, "", items);
  }

  lemma OneItem(it: Item)
    ensures Render([it]) == Rendered(it) && PairsOf([it]) == [PairOf(it)]
  {
    assert [it][1..] == [];
    assert Rendered(it) + "" == Rendered(it);
  }

  lemma OneTotal(p: seq<string>)
    ensures Total([p]) == Amount(p)
  {
    assert [p][1..] == [];
  }

  lemma TwoItems(a: Item, b: Item)
    ensures Render([a, b]) == Rendered(a) + Rendered(b) && PairsOf([a, b]) == [PairOf(a), PairOf(b)]
    ensures Total([PairOf(a), PairOf(b)]) == Amount(PairOf(a)) + Amount(PairOf(b))
  {
    OneItem(b);
    OneTotal(PairOf(b));
    assert [a, b][1..] == [b];
    assert [PairOf(a), PairOf(b)][1..] == [PairOf(b)];
  }

  lemma ReadsTwo(p: Part, q: Part)
    requires Lettered(p) && Lettered(q)
    ensures Reading(Joined([p, q])) == p.n * UnitOfLetter(p.unit) + q.n * UnitOfLetter(q.unit)
  {
    var a, b := ItemOf(p, true), ItemOf(q, false);
    var text := Show(p) + " " + Show(q);
    ItemIsWellFormed(p, true);
    ItemIsWellFormed(q, false);
    TwoItems(a, b);
    assert [p, q][1..] == [q];
    assert Joined([p, q]) == text;
    ReadsItems(text, [a, b]);
    AmountOfPart(p);
    AmountOfPart(q);
  }

  /** Which fields are shown. */
  lemma Shown(d: Time)
    requires d >= SECOND
    ensures var f, shown := Fields(d), Leading(Fields(d));
      if d >= DAY then shown == [f[0], f[1]]
      else if d >= HOUR then shown == [f[1], f[2]]
      else if d >= MINUTE then shown == [f[2], f[3]]
      else shown == [f[3]]
  {
    var f := Fields(d);
    if d < DAY {
      Division(d, DAY, 0, d);
    }
    if d < HOUR {
      Division(d, HOUR, 0, d);
    }
    if d < MINUTE {
      Division(d, MINUTE, 0, d);
    }
    var hms, ms := f[1..], f[2..];
    assert hms[1..] == ms && ms[1..] == [f[3]];
    assert Leading(hms) == if f[1].n == 0 then Leading(ms) else [f[1], f[2]];
    assert Leading(ms) == if f[2].n == 0 then Leading([f[3]]) else [f[2], f[3]];
  }

  lemma Division(d: int, m: int, q: int, r: int)
    requires m > 0 && d == q * m + r && 0 <= r < m
    ensures d / m == q && d % m == r
  {
    assert (d / m - q) * m == r - d % m;
    SmallMultiple(d / m - q, m);
  }

  lemma SmallMultiple(n: int, m: int)
    requires -m < n * m < m
    ensures n == 0
  {
  }

  lemma Remainder(d: int, m: int)
    requires m > 0
    ensures d - d / m * m == d % m
  {
  }

  lemma FieldsAddUp(d: Time)
    requires d >= 0
    ensures var f := Fields(d);
      && f[0].n * DAY + f[1].n * HOUR == d - d % HOUR
      && (d < DAY ==> f[1].n * HOUR + f[2].n * MINUTE == d - d % MINUTE)
      && (d < HOUR ==> f[2].n * MINUTE + f[3].n * SECOND == d - d % SECOND)
      && (d < MINUTE ==> f[3].n * SECOND == d - d % SECOND)
  {
    var f := Fields(d);
    Division(d, HOUR, 24 * f[0].n + f[1].n, d % DAY % HOUR);
    if d < DAY {
      Division(d, DAY, 0, d);
      Division(d, MINUTE, 60 * f[1].n + f[2].n, d % HOUR % MINUTE);
    }
    if d < HOUR {
      Division(d, HOUR, 0, d);
      Division(d, SECOND, 60 * f[2].n + f[3].n, d % MINUTE % SECOND);
    }
    if d < MINUTE {
      Division(d, MINUTE, 0, d);
    }
  }

  /** The text, read again, says the duration rounded down to a multiple of the last unit it shows. */
  lemma TextSaysFloor(d: Time)
    requires d >= 0
    ensures Reading(Text(d)) == d - d % Grain(d)
  {
    if d < SECOND {
      DecimalOfZero();
      ReadsOne(Part(0, "с"));
    } else {
      Shown(d);
      FieldsAddUp(d);
      var f := Fields(d);
      if d >= DAY {
        ReadsTwo(f[0], f[1]);
      } else if d >= HOUR {
        ReadsTwo(f[1], f[2]);
      } else if d >= MINUTE {
        ReadsTwo(f[2], f[3]);
      } else {
        ReadsOne(f[3]);
      }
    }
  }

  lemma DecimalOfZero()
    ensures Show(Part(0, "с")) == "0 с"
  {
    assert Decimal(0) == "0";
  }

  /** What the panel shows is never more than the duration, within one of the last unit shown, and never
      decreases as the duration grows, across all unit boundaries. */
  lemma TextIsMonotone(d: Time, e: Time)
    requires d <= e
    ensures d >= 0 ==> d - Grain(d) < Reading(Text(d)) <= d
    ensures Reading(Text(d)) <= Reading(Text(e))
  {
    var a, b := if d < 0 then 0 else d, if e < 0 then 0 else e;
    TextSaysFloor(a);
    TextSaysFloor(b);
    FloorIsMonotone(a, b);
  }

  lemma FloorIsMonotone(d: Time, e: Time)
    requires 0 <= d <= e
    ensures d - d % Grain(d) <= e - e % Grain(e)
  {
  }

  lemma Nanoseconds()
    ensures SECOND == 1_000_000_000 && MINUTE == 60_000_000_000 && HOUR == 3_600_000_000_000 && DAY == 86_400_000_000_000
  {
  }

  lemma TwoShown(p: Part, q: Part)
    ensures Joined([p, q]) == Decimal(p.n) + " " + p.unit + " " + (Decimal(q.n) + " " + q.unit)
    ensures Joined([p]) == Decimal(p.n) + " " + p.unit
  {
    assert [p, q][1..] == [q];
  }

  /** The texts themselves, field by field: days and hours, */
  lemma DaysAndHours(d: nat, a: nat, b: nat, rest: nat)
    requires a > 0 && b < 24 && rest < 3_600_000_000_000 && d == a * 86_400_000_000_000 + (b * 3_600_000_000_000 + rest)
    ensures Text(d) == Decimal(a) + " д" + " " + (Decimal(b) + " ч")
  {
    FirstFields(d, a, b, rest);
    LongEnough(d, a, b * 3_600_000_000_000 + rest);
    Shown(d);
    TwoShown(Part(a, "д"), Part(b, "ч"));
    Spaced(Decimal(a), "д");
    Spaced(Decimal(b), "ч");
  }

  lemma LongEnough(d: nat, a: nat, r: nat)
    requires a > 0 && d == a * 86_400_000_000_000 + r
    ensures d >= DAY
  {
    Nanoseconds();
  }

  lemma FirstFields(d: nat, a: nat, b: nat, rest: nat)
    requires b < 24 && rest < 3_600_000_000_000 && d == a * 86_400_000_000_000 + (b * 3_600_000_000_000 + rest)
    ensures Fields(d)[0] == Part(a, "д") && Fields(d)[1] == Part(b, "ч")
  {
    Nanoseconds();
    Division(d, 86_400_000_000_000, a, b * 3_600_000_000_000 + rest);
    Division(b * 3_600_000_000_000 + rest, 3_600_000_000_000, b, rest);
  }

  lemma Spaced(n: string, unit: string)
    ensures n + " " + unit == n + (" " + unit)
  {
  }

  /** hours and minutes, */
  lemma HoursAndMinutes(a: nat, b: nat, rest: nat)
    requires 0 < a < 24 && b < 60 && rest < 60_000_000_000
    ensures Text(a * 3_600_000_000_000 + b * 60_000_000_000 + rest) == Decimal(a) + " ч" + " " + (Decimal(b) + " м")
  {
    Nanoseconds();
    var d := a * 3_600_000_000_000 + b * 60_000_000_000 + rest;
    Division(d, 86_400_000_000_000, 0, d);
    Division(d, 3_600_000_000_000, a, b * 60_000_000_000 + rest);
    Division(b * 60_000_000_000 + rest, 60_000_000_000, b, rest);
    Shown(d);
    assert Fields(d)[1] == Part(a, "ч") && Fields(d)[2] == Part(b, "м");
    TwoShown(Part(a, "ч"), Part(b, "м"));
    Spaced(Decimal(a), "ч");
    Spaced(Decimal(b), "м");
  }

  /** minutes and seconds, */
  lemma MinutesAndSeconds(a: nat, b: nat, rest: nat)
    requires 0 < a < 60 && b < 60 && rest < 1_000_000_000
    ensures Text(a * 60_000_000_000 + b * 1_000_000_000 + rest) == Decimal(a) + " м" + " " + (Decimal(b) + " с")
  {
    Nanoseconds();
    var d := a * 60_000_000_000 + b * 1_000_000_000 + rest;
    Division(d, 86_400_000_000_000, 0, d);
    Division(d, 3_600_000_000_000, 0, d);
    Division(d, 60_000_000_000, a, b * 1_000_000_000 + rest);
    Division(b * 1_000_000_000 + rest, 1_000_000_000, b, rest);
    Shown(d);
    assert Fields(d)[2] == Part(a, "м") && Fields(d)[3] == Part(b, "с");
    TwoShown(Part(a, "м"), Part(b, "с"));
    Spaced(Decimal(a), "м");
    Spaced(Decimal(b), "с");
  }

  /** or seconds; less than one, and no duration at all, are none. */
  lemma SecondsOrNone(a: nat, rest: int)
    ensures 0 < a < 60 && 0 <= rest < 1_000_000_000 ==> Text(a * 1_000_000_000 + rest) == Decimal(a) + " с"
    ensures rest < 1_000_000_000 ==> Text(rest) == "0 с"
  {
    Nanoseconds();
    if 0 < a < 60 && 0 <= rest < 1_000_000_000 {
      var d := a * 1_000_000_000 + rest;
      Division(d, 86_400_000_000_000, 0, d);
      Division(d, 3_600_000_000_000, 0, d);
      Division(d, 60_000_000_000, 0, d);
      Division(d, 1_000_000_000, a, rest);
      Shown(d);
      TwoShown(Part(a, "с"), Part(a, "с"));
      Spaced(Decimal(a), "с");
    }
  }
}

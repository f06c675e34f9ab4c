/** Reading a wait out of a forum message: the expression, a single scan that finds the same pairs, the sum
    in 64-bit arithmetic, and the messages it reads back exactly. */
module ParseTime {
  import opened Types
  import opened Int64
  import opened Regex
  import opened Seqs

  /** (?i)(\d+)\s*([a-zA-Zа-яёА-ЯЁ]+) */
  const LETTERS := Repeat(Letter, 1, true, true, Accept)
  const BLANKS := Repeat(Blank, 0, true, false, LETTERS)
  const NUM_UNIT := Repeat(Digit, 1, true, true, BLANKS)

  // ----- the scan -----

  /** One pass over digits, blanks and letters from `i`. */
  function ScanAt(s: string, i: nat): Option<Match>
    requires i <= |s|
  {
    var d := RunLength(s, i, Digit);
    var b := RunLength(s, i + d, Blank);
    var l := RunLength(s, i + d + b, Letter);
    if d == 0 || l == 0 then None
    else Some(Match(i + d + b + l, [s[i..i + d], s[i + d + b..i + d + b + l]]))
  }

  lemma LettersHere(s: string, i: nat)
    requires i <= |s|
    ensures var l := RunLength(s, i, Letter);
      Exec(LETTERS, s, i) == if l == 0 then None else Some(Match(i + l, [s[i..i + l]]))
  {
    var l := RunLength(s, i, Letter);
    if l > 0 {
      assert Exec(LETTERS, s, i) == Shrink(Accept, true, s, i, 1, l);
      assert [s[i..i + l]] + [] == [s[i..i + l]];
    }
  }

  lemma BlanksThenLetters(s: string, i: nat)
    requires i <= |s|
    ensures var b := RunLength(s, i, Blank);
      var l := RunLength(s, i + b, Letter);
      Exec(BLANKS, s, i) == if l == 0 then None else Some(Match(i + b + l, [s[i + b..i + b + l]]))
  {
    AllBlanksTaken(s, i);
    LettersHere(s, i + RunLength(s, i, Blank));
  }

  lemma AllBlanksTaken(s: string, i: nat)
    requires i <= |s|
    ensures Exec(BLANKS, s, i) == Exec(LETTERS, s, i + RunLength(s, i, Blank))
  {
    forall p | i <= p < i + RunLength(s, i, Blank) ensures Exec(LETTERS, s, p).None? {
      RunSuffix(s, i, Blank, p);
      LettersHere(s, p);
    }
    GreedyTakesAll(Blank, 0, false, LETTERS, s, i);
  }

  lemma DigitBlocksBlanks(s: string, i: nat)
    requires i < |s| && IsDigit(s[i])
    ensures Exec(BLANKS, s, i).None?
  {
    BlanksThenLetters(s, i);
  }

  /** Shorter digit runs never help, since a digit would have to be a blank or a letter. */
  lemma AllDigitsTaken(s: string, i: nat)
    requires i <= |s|
    ensures var d := RunLength(s, i, Digit);
      Exec(NUM_UNIT, s, i) ==
      if d == 0 || Exec(BLANKS, s, i + d).None? then None
      else Some(Captured(Exec(BLANKS, s, i + d).value, true, s[i..i + d]))
  {
    var d := RunLength(s, i, Digit);
    forall p | i + 1 <= p < i + d ensures Exec(BLANKS, s, p).None? {
      RunSuffix(s, i, Digit, p);
      DigitBlocksBlanks(s, p);
    }
    GreedyTakesAll(Digit, 1, true, BLANKS, s, i);
  }

  /** The regular expression matches at `i` exactly what the scan takes there. */
  lemma NumUnitIsScan(s: string, i: nat)
    requires i <= |s|
    ensures Exec(NUM_UNIT, s, i) == ScanAt(s, i)
  {
    AllDigitsTaken(s, i);
    BlanksThenLetters(s, i + RunLength(s, i, Digit));
    ScanJoins(s, i, Exec(BLANKS, s, i + RunLength(s, i, Digit)));
  }

  /** The scan at `i`, put together from the digits and what follows them. */
  lemma ScanJoins(s: string, i: nat, rest: Option<Match>)
    requires i <= |s|
    requires var j := i + RunLength(s, i, Digit);
      var b := RunLength(s, j, Blank);
      var l := RunLength(s, j + b, Letter);
      rest == if l == 0 then None else Some(Match(j + b + l, [s[j + b..j + b + l]]))
    ensures ScanAt(s, i) ==
            if RunLength(s, i, Digit) == 0 || rest.None? then None
            else Some(Captured(rest.value, true, s[i..i + RunLength(s, i, Digit)]))
  {
    if rest.Some? {
      TwoCaps(s[i..i + RunLength(s, i, Digit)], rest.value.caps[0]);
    }
  }

  /** After a run of digits and blanks that no letter follows, the scan goes on behind the run. */
  lemma NothingInside(s: string, i: nat, k: nat)
    requires i <= |s| && RunLength(s, i, Digit) > 0 && ScanAt(s, i).None?
    requires i <= k < i + RunLength(s, i, Digit) + RunLength(s, i + RunLength(s, i, Digit), Blank)
    ensures Exec(NUM_UNIT, s, k).None?
  {
    if k < i + RunLength(s, i, Digit) {
      ScanInside(s, i, k);
      NumUnitIsScan(s, k);
    } else {
      NoneAtBlank(s, i + RunLength(s, i, Digit), k);
    }
  }

  lemma ScanInside(s: string, i: nat, k: nat)
    requires i <= |s| && i <= k < i + RunLength(s, i, Digit) && ScanAt(s, i).None?
    ensures ScanAt(s, k).None?
  {
    RunSuffix(s, i, Digit, k);
  }

  lemma NoneAtBlank(s: string, i: nat, k: nat)
    requires i <= |s| && i <= k < i + RunLength(s, i, Blank)
    ensures Exec(NUM_UNIT, s, k).None?
  {
    RunSuffix(s, i, Blank, k);
    NumUnitIsScan(s, k);
  }

  /** Where the scan stands after looking at position `i`, and what it found there. */
  function Advance(s: string, i: nat): (r: (nat, seq<seq<string>>))
    requires i < |s|
    ensures i < r.0 <= |s|
  {
    var d := RunLength(s, i, Digit);
    var b := RunLength(s, i + d, Blank);
    var l := RunLength(s, i + d + b, Letter);
    if d == 0 then (i + 1, [])
    else if l == 0 then (i + d + b, [])
    else (i + d + b + l, [[s[i..i + d], s[i + d + b..i + d + b + l]]])
  }

  lemma AdvanceIsFindAll(s: string, i: nat)
    requires i < |s|
    ensures FindAll(NUM_UNIT, s, i) == Advance(s, i).1 + FindAll(NUM_UNIT, s, Advance(s, i).0)
  {
    NumUnitIsScan(s, i);
    if ScanAt(s, i).None? {
      var j := Advance(s, i).0;
      forall p | i <= p < j ensures Exec(NUM_UNIT, s, p).None? {
        if p > i {
          NothingInside(s, i, p);
        }
      }
      SkipMissesAll(NUM_UNIT, s, i, j);
    }
  }

  method SkipRun(s: string, i: nat, cls: Class) returns (j: nat)
    requires i <= |s|
    ensures j == i + RunLength(s, i, cls)
  {
    j := i;
    while j < |s| && In(s[j], cls)
      invariant i <= j <= |s|
      invariant RunLength(s, i, cls) == j - i + RunLength(s, j, cls)
    {
      j := j + 1;
    }
  }

  method Look(text: string, i: nat) returns (next: nat, found: seq<seq<string>>)
    requires i < |text|
    ensures (next, found) == Advance(text, i)
  {
    var j := SkipRun(text, i, Digit);
    if j == i {
      return i + 1, [];
    }
    var k := SkipRun(text, j, Blank);
    var l := SkipRun(text, k, Letter);
    next := l;
    found := if k < l then [[text[i..j], text[k..l]]] else [];
  }

  /** A single left-to-right scan, never looking back, finds the leftmost greedy non-overlapping matches. */
  method Pairs(text: string) returns (out: seq<seq<string>>)
    ensures out == FindAll(NUM_UNIT, text, 0)
  {
    out := [];
    var i := 0;
    ghost var all := FindAll(NUM_UNIT, text, 0);
    while i < |text|
      invariant i <= |text|
      invariant out + FindAll(NUM_UNIT, text, i) == all
      decreases |text| - i
    {
      AdvanceIsFindAll(text, i);
      var next, found := Look(text, i);
      Regroup(out, found, FindAll(NUM_UNIT, text, next));
      out := out + found;
      i := next;
    }
    NumUnitIsScan(text, |text|);
  }

  // ----- units -----

  const MINUTE: Time := 60 * SECOND
  const HOUR: Time := 60 * MINUTE
  const DAY: Time := 24 * HOUR

  function Lower(c: char): char {
    if 'A' <= c <= 'Z' then (c as int + 32) as char
    else if '\U{0410}' <= c <= '\U{042F}' then (c as int + 32) as char
    else if c == '\U{0401}' then '\U{0451}'
    else if c == '\U{212A}' then 'k'
    else c
  }

  function ToLower(w: string): (r: string)
    ensures |r| == |w| && forall k :: 0 <= k < |w| ==> r[k] == Lower(w[k])
  {
    seq(|w|, k requires 0 <= k < |w| => Lower(w[k]))
  }

  /** The unit a lower-case word stands for, by its beginning. */
  function UnitOfLower(u: string): Option<Time> {
    if "дн" <= u || "ден" <= u || "сут" <= u || "day" <= u then Some(DAY)
    else if "час" <= u || "hour" <= u || "hr" <= u then Some(HOUR)
    else if "мин" <= u || "min" <= u then Some(MINUTE)
    else if "сек" <= u || "sec" <= u then Some(SECOND)
    else None
  }

  function Unit(w: string): Option<Time> {
    UnitOfLower(ToLower(w))
  }

  function Value(ds: string): (v: nat)
    requires forall k :: 0 <= k < |ds| ==> IsDigit(ds[k])
  {
    if ds == "" then 0
    else
      assert IsDigit(ds[|ds| - 1]);
      10 * Value(ds[..|ds| - 1]) + (ds[|ds| - 1] as int - '0' as int)
  }

  /** strconv.Atoi on a run of digits: None beyond the range of int64. */
  function Atoi(ds: string): Option<nat> {
    if ds != "" && (forall k :: 0 <= k < |ds| ==> IsDigit(ds[k])) && Value(ds) <= MAX64
    then Some(Value(ds)) else None
  }

  /** What one pair adds to the wait, in unbounded arithmetic; None when it is passed over. */
  function Worth(pair: seq<string>): Option<Time> {
    if |pair| != 2 || Atoi(pair[0]).None? || Unit(pair[1]).None? then None
    else Some(Atoi(pair[0]).value * Unit(pair[1]).value)
  }

  function Added(pair: seq<string>): nat {
    if Worth(pair).Some? then WorthNonNegative(pair); Worth(pair).value else 0
  }

  lemma WorthNonNegative(pair: seq<string>)
    requires Worth(pair).Some?
    ensures Worth(pair).value >= 0
  {
    assert Atoi(pair[0]).value >= 0 && Unit(pair[1]).value >= 0;
  }

  function IdealWait(pairs: seq<seq<string>>): nat {
    if pairs == [] then 0 else IdealWait(pairs[..|pairs| - 1]) + Added(pairs[|pairs| - 1])
  }

  ghost predicate Mentions(pairs: seq<seq<string>>) {
    exists k :: 0 <= k < |pairs| && Worth(pairs[k]).Some?
  }

  // ----- the sum in 64-bit arithmetic -----

  /** The sum over the pairs of a message. Every product and every sum wraps at 64 bits, and yet the result
      is the ideal total modulo 2^64; so it is exact whenever the ideal total fits. */
  method ParseWaitDuration(text: string) returns (total: Time, found: bool)
    ensures total == Wrap(IdealWait(FindAll(NUM_UNIT, text, 0)))
    ensures IdealWait(FindAll(NUM_UNIT, text, 0)) <= MAX64 ==> total == IdealWait(FindAll(NUM_UNIT, text, 0))
    ensures found <==> Mentions(FindAll(NUM_UNIT, text, 0))
  {
    var matches := Pairs(text);
    total, found := 0, false;
    for i := 0 to |matches|
      invariant total == WrappedSum(matches[..i])
      invariant found <==> Mentions(matches[..i])
    {
      OneMore(matches, i);
      var term := Term(matches[i]);
      if term.Some? {
        total := Wrap(total + term.value);
        found := true;
      }
    }
    assert matches[..|matches|] == matches;
    SumIsWrap(matches);
    WrapExact(IdealWait(matches));
  }

  /** The sum with every step wrapped. */
  function WrappedSum(pairs: seq<seq<string>>): int {
    if pairs == [] then 0
    else
      var before, worth := WrappedSum(pairs[..|pairs| - 1]), Worth(pairs[|pairs| - 1]);
      if worth.None? then before else Wrap(before + Wrap(worth.value))
  }

  /** However often it wraps, the sum is right modulo 2^64. */
  lemma {:induction false} SumIsWrap(pairs: seq<seq<string>>)
    ensures WrappedSum(pairs) == Wrap(IdealWait(pairs))
  {
    if pairs == [] {
    } else {
      var before, last := pairs[..|pairs| - 1], pairs[|pairs| - 1];
      SumIsWrap(before);
      if Worth(last).Some? {
        WorthNonNegative(last);
        WrapOfSum(IdealWait(before), Worth(last).value);
      }
    }
  }

  /** One pair as the code multiplies it out. */
  method Term(m: seq<string>) returns (r: Option<Time>)
    ensures r.Some? <==> Worth(m).Some?
    ensures r.Some? ==> r.value == Wrap(Worth(m).value)
  {
    if |m| != 2 {
      return None;
    }
    var n := Atoi(m[0]);
    if n.None? {
      return None;
    }
    var unit := ToLower(m[1]);
    if "дн" <= unit || "ден" <= unit || "сут" <= unit || "day" <= unit {
      WrapOfProduct(n.value * 24, HOUR);
      return Some(Wrap(Wrap(n.value * 24) * HOUR));
    } else if "час" <= unit || "hour" <= unit || "hr" <= unit {
      return Some(Wrap(n.value * HOUR));
    } else if "мин" <= unit || "min" <= unit {
      return Some(Wrap(n.value * MINUTE));
    } else if "сек" <= unit || "sec" <= unit {
      return Some(Wrap(n.value * SECOND));
    }
    r := None;
  }

  lemma OneMore(pairs: seq<seq<string>>, i: nat)
    requires i < |pairs|
    ensures var sum := WrappedSum(pairs[..i]);
      WrappedSum(pairs[..i + 1]) == if Worth(pairs[i]).None? then sum else Wrap(sum + Wrap(Worth(pairs[i]).value))
    ensures Mentions(pairs[..i + 1]) <==> Mentions(pairs[..i]) || Worth(pairs[i]).Some?
  {
    assert pairs[..i + 1][..i] == pairs[..i];
    assert forall k :: 0 <= k < i ==> pairs[..i + 1][k] == pairs[..i][k];
  }

  // ----- messages it reads back -----

  /** A count, an optional gap, a unit word, and text up to the next count. */
  datatype Item = Item(count: string, gap: string, word: string, rest: string)

  ghost predicate DigitFree(s: string) {
    forall k :: 0 <= k < |s| ==> !IsDigit(s[k])
  }

  ghost predicate WellFormed(it: Item) {
    it.count != "" && All(it.count, Digit) && All(it.gap, Blank) && it.word != "" && All(it.word, Letter) && DigitFree(it.rest)
  }

  function Rendered(it: Item): string {
    it.count + it.gap + it.word + it.rest
  }

  function Render(items: seq<Item>): string {
    if items == [] then "" else Rendered(items[0]) + Render(items[1..])
  }

  /** The letters a text begins with. They continue the unit word before them. */
  function Head(s: string): string {
    s[..RunLength(s, 0, Letter)]
  }

  function PairOf(it: Item): seq<string> {
    [it.count, it.word + Head(it.rest)]
  }

  function PairsOf(items: seq<Item>): seq<seq<string>> {
    if items == [] then [] else [PairOf(items[0])] + PairsOf(items[1..])
  }

  lemma DigitFreeMisses(s: string, i: nat, j: nat)
    requires i <= j <= |s| && forall k :: i <= k < j ==> !IsDigit(s[k])
    ensures FindAll(NUM_UNIT, s, i) == FindAll(NUM_UNIT, s, j)
  {
    forall k | i <= k < j ensures Exec(NUM_UNIT, s, k).None? {
      NumUnitIsScan(s, k);
    }
    SkipMissesAll(NUM_UNIT, s, i, j);
  }

  lemma {:induction false} HeadInPlace(s: string, i: nat, rest: string, tail: string)
    requires i <= |s| && s[i..] == rest + tail && (tail == "" || IsDigit(tail[0]))
    ensures RunLength(s, i, Letter) == |Head(rest)|
    decreases |rest|
  {
    if rest == "" {
      if tail != "" {
        assert s[i] == tail[0];
      }
    } else {
      assert s[i] == rest[0];
      if IsLetter(rest[0]) {
        assert s[i + 1..] == rest[1..] + tail;
        HeadInPlace(s, i + 1, rest[1..], tail);
        RunShift(rest);
      }
    }
  }

  lemma RunShift(s: string)
    requires s != "" && IsLetter(s[0])
    ensures RunLength(s, 0, Letter) == 1 + RunLength(s[1..], 0, Letter)
  {
    var n := RunLength(s[1..], 0, Letter);
    RunLengthMeaning(s[1..], 0, Letter);
    assert forall k :: 1 <= k < |s| ==> s[k] == s[1..][k - 1];
    RunLengthIs(s, 0, Letter, n + 1);
  }

  lemma PeelRun(s: string, i: nat, a: string, b: string, cls: Class)
    requires i <= |s| && s[i..] == a + b && All(a, cls) && (b == "" || !In(b[0], cls))
    ensures RunLength(s, i, cls) == |a| && s[i..i + |a|] == a && s[i + |a|..] == b
  {
    Peel(s, i, a, b);
    if b != "" {
      assert s[i + |a|] == b[0];
    }
    RunLengthIs(s, i, cls, |a|);
  }

  /** A word and the letters that follow it form one run. */
  lemma PeelWord(s: string, i: nat, word: string, rest: string, tail: string)
    requires i <= |s| && s[i..] == word + (rest + tail) && All(word, Letter) && (tail == "" || IsDigit(tail[0]))
    ensures var n := |word| + |Head(rest)|;
      RunLength(s, i, Letter) == n && s[i..i + n] == word + Head(rest) && s[i + n..] == rest[|Head(rest)|..] + tail
  {
    var j := i + |word|;
    var h := |Head(rest)|;
    Peel(s, i, word, rest + tail);
    RunExtends(s, i, |word|);
    HeadInPlace(s, j, rest, tail);
    SplitRest(rest, tail, h);
    Peel(s, j, Head(rest), rest[h..] + tail);
    Slices(s, i, j, j + h);
  }

  lemma SplitRest(rest: string, tail: string, h: nat)
    requires h <= |rest|
    ensures rest + tail == rest[..h] + (rest[h..] + tail)
  {
  }

  lemma RenderedSplit(it: Item, tail: string)
    requires WellFormed(it)
    ensures Rendered(it) + tail == it.count + (it.gap + (it.word + (it.rest + tail)))
    ensures !IsDigit((it.gap + (it.word + (it.rest + tail)))[0])
    ensures !IsBlank((it.word + (it.rest + tail))[0])
  {
    assert In(it.word[0], Letter);
    if it.gap != "" {
      assert In(it.gap[0], Blank);
    }
  }

  lemma CountAndGapInPlace(s: string, i: nat, it: Item, tail: string)
    requires i <= |s| && WellFormed(it) && s[i..] == Rendered(it) + tail
    ensures var j := i + |it.count|;
      var k := j + |it.gap|;
      && RunLength(s, i, Digit) == |it.count| && s[i..j] == it.count
      && RunLength(s, j, Blank) == |it.gap| && s[k..] == it.word + (it.rest + tail)
  {
    RenderedSplit(it, tail);
    var afterGap := it.word + (it.rest + tail);
    PeelRun(s, i, it.count, it.gap + afterGap, Digit);
    PeelRun(s, i + |it.count|, it.gap, afterGap, Blank);
  }

  /** Where an item stands in the text the scan takes its count, its gap and its whole word. */
  lemma ItemInPlace(s: string, i: nat, it: Item, tail: string)
    requires i <= |s| && WellFormed(it) && s[i..] == Rendered(it) + tail && (tail == "" || IsDigit(tail[0]))
    ensures i < |s|
    ensures Advance(s, i).1 == [PairOf(it)] && s[Advance(s, i).0..] == it.rest[|Head(it.rest)|..] + tail
  {
    var end := ItemRuns(s, i, it, tail);
    AdvanceIs(s, i, i + |it.count|, i + |it.count| + |it.gap|, end);
  }

  lemma ItemRuns(s: string, i: nat, it: Item, tail: string) returns (end: nat)
    requires i <= |s| && WellFormed(it) && s[i..] == Rendered(it) + tail && (tail == "" || IsDigit(tail[0]))
    ensures var j := i + |it.count|;
      var k := j + |it.gap|;
      && i < j && k < end <= |s| && s[i..j] == it.count && s[k..end] == it.word + Head(it.rest)
      && RunLength(s, i, Digit) == j - i && RunLength(s, j, Blank) == k - j && RunLength(s, k, Letter) == end - k
      && s[end..] == it.rest[|Head(it.rest)|..] + tail
  {
    CountAndGapInPlace(s, i, it, tail);
    var k := i + |it.count| + |it.gap|;
    PeelWord(s, k, it.word, it.rest, tail);
    end := k + |it.word| + |Head(it.rest)|;
  }

  lemma AdvanceIs(s: string, i: nat, j: nat, k: nat, end: nat)
    requires i < j <= k < end <= |s|
    requires RunLength(s, i, Digit) == j - i && RunLength(s, j, Blank) == k - j && RunLength(s, k, Letter) == end - k
    ensures Advance(s, i) == (end, [[s[i..j], s[k..end]]])
  {
  }

  lemma {:induction false} RunExtends(s: string, i: nat, n: nat)
    requires i + n <= |s| && forall k :: i <= k < i + n ==> IsLetter(s[k])
    ensures RunLength(s, i, Letter) == n + RunLength(s, i + n, Letter)
    decreases n
  {
    if n == 0 {
    } else {
      RunExtends(s, i + 1, n - 1);
    }
  }

  /** Any list of items, with any digit-free text before and between them, is found exactly. */
  lemma {:induction false} ScanRender(s: string, i: nat, lead: string, items: seq<Item>)
    requires i <= |s| && DigitFree(lead) && s[i..] == lead + Render(items)
    requires forall k :: 0 <= k < |items| ==> WellFormed(items[k])
    ensures FindAll(NUM_UNIT, s, i) == PairsOf(items)
    decreases |items|
  {
    var j := i + |lead|;
    assert forall k :: i <= k < j ==> s[k] == s[i..][k - i] == lead[k - i];
    DigitFreeMisses(s, i, j);
    assert s[j..] == Render(items);
    if items == [] {
      NumUnitIsScan(s, |s|);
    } else {
      var it, tail := items[0], Render(items[1..]);
      if tail != "" {
        assert WellFormed(items[1]) && tail[0] == items[1].count[0] && In(items[1].count[0], Digit);
      }
      ItemInPlace(s, j, it, tail);
      AdvanceIsFindAll(s, j);
      ScanRender(s, Advance(s, j).0, it.rest[|Head(it.rest)|..], items[1..]);
    }
  }

  /** A unit is read off the beginning of the word, so letters that follow do not change it: of any two
      beginnings that belong to different units, neither begins the other. */
  lemma UnitOfLowerStable(l: string, m: string)
    requires l <= m && UnitOfLower(l).Some?
    ensures UnitOfLower(m) == UnitOfLower(l)
  {
    assert |l| >= 2 && m[0] == l[0] && m[1] == l[1];
  }

  lemma UnitStable(w: string, x: string)
    requires Unit(w).Some?
    ensures Unit(w + x) == Unit(w)
  {
    assert ToLower(w) <= ToLower(w + x);
    UnitOfLowerStable(ToLower(w), ToLower(w + x));
  }

  /** The cases exclude each other, so their order does not matter: a beginning alone decides the unit. */
  lemma BeginningDecides(w: string)
    ensures var l := ToLower(w);
      && ("дн" <= l || "ден" <= l || "сут" <= l || "day" <= l <==> Unit(w) == Some(24 * 3600 * SECOND))
      && ("час" <= l || "hour" <= l || "hr" <= l <==> Unit(w) == Some(3600 * SECOND))
      && ("мин" <= l || "min" <= l <==> Unit(w) == Some(60 * SECOND))
      && ("сек" <= l || "sec" <= l <==> Unit(w) == Some(SECOND))
  {
    var l := ToLower(w);
    if |l| >= 2 {
      assert "час" <= l ==> l[0] == 'ч';
      assert "hour" <= l ==> l[0] == 'h';
      assert "hr" <= l ==> l[0] == 'h';
      assert "мин" <= l ==> l[0] == 'м';
      assert "min" <= l ==> l[0] == 'm';
      assert "сек" <= l ==> l[0] == 'с' && l[1] == 'е';
      assert "sec" <= l ==> l[0] == 's';
      assert "дн" <= l || "ден" <= l ==> l[0] == 'д';
      assert "сут" <= l ==> l[0] == 'с' && l[1] == 'у';
      assert "day" <= l ==> l[0] == 'd';
    }
  }

  /** The usual decimal notation. */
  function Decimal(n: nat): (ds: string)
    ensures ds != "" && forall k :: 0 <= k < |ds| ==> IsDigit(ds[k])
  {
    var last := ['0' + (n % 10) as char];
    if n < 10 then last else Decimal(n / 10) + last
  }

  lemma {:induction false} DecimalValue(n: nat)
    ensures Value(Decimal(n)) == n
  {
    var ds := Decimal(n);
    if n < 10 {
      assert ds[..0] == "";
    } else {
      DecimalValue(n / 10);
      assert ds[..|ds| - 1] == Decimal(n / 10);
    }
  }

  ghost predicate Recognised(it: Item) {
    WellFormed(it) && Unit(it.word).Some?
  }

  ghost predicate Fits(it: Item) {
    Recognised(it) && Value(it.count) <= MAX64
  }

  /** What the author of the message meant: the sum of count times unit. A count beyond int64 is passed over. */
  ghost function Meant(items: seq<Item>): Time
    requires forall k :: 0 <= k < |items| ==> Recognised(items[k])
  {
    if items == [] then 0
    else
      assert Recognised(items[0]);
      Meant(items[1..]) + if Fits(items[0]) then Value(items[0].count) * Unit(items[0].word).value else 0
  }

  lemma PairWorth(it: Item)
    requires Recognised(it)
    ensures Worth(PairOf(it)) == if Fits(it) then Some(Value(it.count) * Unit(it.word).value) else None
  {
    UnitStable(it.word, Head(it.rest));
    assert forall k :: 0 <= k < |it.count| ==> IsDigit(it.count[k]) by {
      assert forall k :: 0 <= k < |it.count| ==> In(it.count[k], Digit);
    }
  }

  lemma {:induction false} IdealWaitCons(p: seq<string>, pairs: seq<seq<string>>)
    ensures IdealWait([p] + pairs) == Added(p) + IdealWait(pairs)
    decreases |pairs|
  {
    var all := [p] + pairs;
    if pairs == [] {
      assert all[..0] == [];
    } else {
      IdealWaitCons(p, pairs[..|pairs| - 1]);
      assert all[..|all| - 1] == [p] + pairs[..|pairs| - 1];
    }
  }

  lemma MentionsCons(p: seq<string>, pairs: seq<seq<string>>)
    ensures Mentions([p] + pairs) <==> Worth(p).Some? || Mentions(pairs)
  {
    var all := [p] + pairs;
    assert forall k :: 0 <= k < |pairs| ==> all[k + 1] == pairs[k];
    assert all[0] == p;
  }

  lemma {:induction false} PairsMean(items: seq<Item>)
    requires forall k :: 0 <= k < |items| ==> Recognised(items[k])
    ensures IdealWait(PairsOf(items)) == Meant(items)
    ensures Mentions(PairsOf(items)) <==> exists k :: 0 <= k < |items| && Fits(items[k])
  {
    if items == [] {
    } else {
      assert forall k :: 1 <= k < |items| ==> items[k] == items[1..][k - 1];
      PairsMean(items[1..]);
      assert Recognised(items[0]);
      PairWorth(items[0]);
      IdealWaitCons(PairOf(items[0]), PairsOf(items[1..]));
      MentionsCons(PairOf(items[0]), PairsOf(items[1..]));
    }
  }

  /** Round trip: counts and unit words, Russian or English in any mix, joined by any digit-free text, are
      read back as the wait they mean; and something is found exactly when some count fits. */
  lemma MessageReadsBack(lead: string, items: seq<Item>)
    requires DigitFree(lead) && forall k :: 0 <= k < |items| ==> Recognised(items[k])
    ensures IdealWait(FindAll(NUM_UNIT, lead + Render(items), 0)) == Meant(items)
    ensures Mentions(FindAll(NUM_UNIT, lead + Render(items), 0)) <==> exists k :: 0 <= k < |items| && Fits(items[k])
  {
    var s := lead + Render(items);
    assert s[0..] == s;
    assert forall k :: 0 <= k < |items| ==> WellFormed(items[k]) by {
      assert forall k :: 0 <= k < |items| ==> Recognised(items[k]);
    }
    ScanRender(s, 0, lead, items);
    PairsMean(items);
  }
}

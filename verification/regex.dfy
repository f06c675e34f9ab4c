/**
 Leftmost-first regular expressions: the match a backtracking engine finds first, as the Go regexp package
 promises. An expression carries its continuation, so alternatives and repetition lengths are tried in the
 order the syntax gives them, each together with everything that follows.
 */
module Regex {
  import opened Types

  /** The character classes used by the bot's expressions. */
  datatype Class = Digit | Blank | Letter | RefSlug | HrefSlug | QueryMark | NotNewline

  predicate IsDigit(c: char) { '0' <= c <= '9' }

  predicate IsBlank(c: char) { c == ' ' || c == '\t' || c == '\n' || c == '\r' || c == '\U{000C}' }

  /** [a-zA-Zа-яёА-ЯЁ] under (?i): the class closed under simple case folding. */
  predicate IsLetter(c: char) {
    || 'a' <= c <= 'z' || 'A' <= c <= 'Z'
    || '\U{0410}' <= c <= '\U{044F}' || c == '\U{0401}' || c == '\U{0451}'
    || c == '\U{017F}' || c == '\U{212A}' || '\U{1C80}' <= c <= '\U{1C86}'
  }

  predicate In(c: char, cls: Class) {
    match cls
    case Digit => IsDigit(c)
    case Blank => IsBlank(c)
    case Letter => IsLetter(c)
    case RefSlug => c != '/' && c != '?' && c != '#'
    case HrefSlug => c != '/' && c != '?' && c != '#' && c != '\"'
    case QueryMark => c == '?' || c == '#'
    case NotNewline => c != '\n'
  }

  ghost predicate All(s: string, cls: Class) {
    forall k :: 0 <= k < |s| ==> In(s[k], cls)
  }

  datatype Re =
    | Accept
    | AtEnd
    | Lit(text: string, next: Re)
    | One(cls: Class, next: Re)
    | Alt(first: Re, second: Re)
    | Repeat(cls: Class, min: nat, greedy: bool, capture: bool, next: Re)

  /** r? followed by k, greedy: with r first. */
  function OptLit(text: string, next: Re): Re {
    Alt(Lit(text, next), next)
  }

  datatype Match = Match(end: nat, caps: seq<string>)

  function RunLength(s: string, i: nat, cls: Class): (n: nat)
    requires i <= |s|
    ensures i + n <= |s|
    decreases |s| - i
  {
    if i < |s| && In(s[i], cls) then 1 + RunLength(s, i + 1, cls) else 0
  }

  function Exec(re: Re, s: string, i: nat): (r: Option<Match>)
    requires i <= |s|
    ensures r.Some? ==> i <= r.value.end <= |s|
    decreases re, |s|, 0
  {
    match re
    case Accept => Some(Match(i, []))
    case AtEnd => if i == |s| then Some(Match(i, [])) else None
    case Lit(text, next) =>
      if text <= s[i..] then Exec(next, s, i + |text|) else None
    case One(cls, next) =>
      if i < |s| && In(s[i], cls) then Exec(next, s, i + 1) else None
    case Alt(first, second) =>
      var r := Exec(first, s, i);
      if r.Some? then r else Exec(second, s, i)
    case Repeat(cls, min, greedy, capture, next) =>
      var most := RunLength(s, i, cls);
      if most < min then None
      else if greedy then Shrink(next, capture, s, i, min, most)
      else Grow(next, capture, s, i, min, most)
  }

  function Captured(r: Match, capture: bool, text: string): Match {
    if capture then Match(r.end, [text] + r.caps) else r
  }

  /** Lengths n, n - 1, ..., lo. */
  function Shrink(next: Re, capture: bool, s: string, i: nat, lo: nat, n: nat): (r: Option<Match>)
    requires lo <= n && i + n <= |s|
    ensures r.Some? ==> i <= r.value.end <= |s|
    decreases next, |s|, n + 1
  {
    var r := Exec(next, s, i + n);
    if r.Some? then Some(Captured(r.value, capture, s[i..i + n]))
    else if n > lo then Shrink(next, capture, s, i, lo, n - 1)
    else None
  }

  /** Lengths n, n + 1, ..., hi. */
  function Grow(next: Re, capture: bool, s: string, i: nat, n: nat, hi: nat): (r: Option<Match>)
    requires n <= hi && i + hi <= |s|
    ensures r.Some? ==> i <= r.value.end <= |s|
    decreases next, |s|, hi - n + 1
  {
    var r := Exec(next, s, i + n);
    if r.Some? then Some(Captured(r.value, capture, s[i..i + n]))
    else if n < hi then Grow(next, capture, s, i, n + 1, hi)
    else None
  }

  datatype Found = Found(start: nat, m: Match)

  /** The match that starts leftmost at or after `i`. */
  function FindFrom(re: Re, s: string, i: nat): (r: Option<Found>)
    requires i <= |s|
    ensures r.Some? ==> i <= r.value.start <= r.value.m.end <= |s|
    decreases |s| - i
  {
    var m := Exec(re, s, i);
    if m.Some? then Some(Found(i, m.value))
    else if i < |s| then FindFrom(re, s, i + 1)
    else None
  }

  /** All matches from `i` on, left to right and not overlapping, as their capture groups. */
  function FindAll(re: Re, s: string, i: nat): seq<seq<string>>
    requires i <= |s|
    decreases |s| - i
  {
    match FindFrom(re, s, i)
    case None => []
    case Some(f) =>
      if f.m.end > f.start then [f.m.caps] + FindAll(re, s, f.m.end)
      else if f.start < |s| then [f.m.caps] + FindAll(re, s, f.start + 1)
      else [f.m.caps]
  }

  // ----- laws -----

  lemma Peel(s: string, i: nat, a: string, b: string)
    requires i <= |s| && s[i..] == a + b
    ensures i + |a| <= |s| && s[i..i + |a|] == a && s[i + |a|..] == b
    ensures forall k :: i <= k < i + |a| ==> s[k] == a[k - i]
  {
    assert s[i..][..|a|] == s[i..i + |a|];
    assert s[i..][|a|..] == s[i + |a|..];
    assert forall k :: i <= k < i + |a| ==> s[k] == s[i..i + |a|][k - i];
  }

  lemma {:induction false} RunLengthIs(s: string, i: nat, cls: Class, n: nat)
    requires i + n <= |s| && forall k :: i <= k < i + n ==> In(s[k], cls)
    requires i + n == |s| || !In(s[i + n], cls)
    ensures RunLength(s, i, cls) == n
    decreases n
  {
    if n == 0 {
    } else {
      RunLengthIs(s, i + 1, cls, n - 1);
    }
  }

  /** From inside a run, the rest of the run is left. */
  lemma {:induction false} RunSuffix(s: string, i: nat, cls: Class, k: nat)
    requires i <= |s| && i <= k <= i + RunLength(s, i, cls)
    ensures RunLength(s, k, cls) == i + RunLength(s, i, cls) - k
    ensures k < i + RunLength(s, i, cls) ==> In(s[k], cls)
    decreases k - i
  {
    if i == k {
    } else {
      RunSuffix(s, i + 1, cls, k);
    }
  }

  lemma {:induction false} AtLeast(s: string, i: nat, cls: Class, n: nat)
    requires i + n <= |s| && forall k :: i <= k < i + n ==> In(s[k], cls)
    ensures RunLength(s, i, cls) >= n
    decreases n
  {
    if n == 0 {
    } else {
      AtLeast(s, i + 1, cls, n - 1);
    }
  }

  lemma {:induction false} RunLengthMeaning(s: string, i: nat, cls: Class)
    requires i <= |s|
    ensures var n := RunLength(s, i, cls);
      && (forall k :: i <= k < i + n ==> In(s[k], cls))
      && (i + n == |s| || !In(s[i + n], cls))
    decreases |s| - i
  {
    if i == |s| || !In(s[i], cls) {
    } else {
      RunLengthMeaning(s, i + 1, cls);
    }
  }

  /** Positions where nothing matches can be skipped. */
  lemma {:induction false} SkipMisses(re: Re, s: string, i: nat, j: nat)
    requires i <= j <= |s| && forall k :: i <= k < j ==> Exec(re, s, k).None?
    ensures FindFrom(re, s, i) == FindFrom(re, s, j)
    decreases j - i
  {
    if i == j {
    } else {
      SkipMisses(re, s, i + 1, j);
    }
  }

  lemma SkipMissesAll(re: Re, s: string, i: nat, j: nat)
    requires i <= j <= |s| && forall k :: i <= k < j ==> Exec(re, s, k).None?
    ensures FindAll(re, s, i) == FindAll(re, s, j)
  {
    SkipMisses(re, s, i, j);
  }

  lemma {:induction false} ShrinkFails(next: Re, capture: bool, s: string, i: nat, lo: nat, n: nat)
    requires lo <= n && i + n <= |s| && forall p :: i + lo <= p <= i + n ==> Exec(next, s, p).None?
    ensures Shrink(next, capture, s, i, lo, n).None?
    decreases n
  {
    if n == lo {
    } else {
      ShrinkFails(next, capture, s, i, lo, n - 1);
    }
  }

  /** A greedy repetition takes its whole run when nothing can follow a shorter one. */
  lemma GreedyTakesAll(cls: Class, min: nat, capture: bool, next: Re, s: string, i: nat)
    requires i <= |s| && forall p :: i + min <= p < i + RunLength(s, i, cls) ==> Exec(next, s, p).None?
    ensures var n := RunLength(s, i, cls);
      Exec(Repeat(cls, min, true, capture, next), s, i) ==
      if n < min || Exec(next, s, i + n).None? then None
      else Some(Captured(Exec(next, s, i + n).value, capture, s[i..i + n]))
  {
    var n := RunLength(s, i, cls);
    if n >= min && Exec(next, s, i + n).None? {
      ShrinkFails(next, capture, s, i, min, n);
    }
  }

  lemma TwoCaps(a: string, b: string)
    ensures [a] + [b] == [a, b]
  {
  }

  lemma CharThen(c: char, next: Re, s: string, i: nat)
    requires i <= |s|
    ensures Exec(Lit([c], next), s, i) == if i < |s| && s[i] == c then Exec(next, s, i + 1) else None
  {
    assert [c] <= s[i..] <==> i < |s| && s[i] == c;
  }

  /** A greedy repetition takes the longest length that lets the rest match. */
  lemma {:induction false} ShrinkFinds(next: Re, capture: bool, s: string, i: nat, lo: nat, n: nat, at: nat)
    requires lo <= at <= n && i + n <= |s| && Exec(next, s, i + at).Some?
    requires forall p :: i + at < p <= i + n ==> Exec(next, s, p).None?
    ensures Shrink(next, capture, s, i, lo, n) == Some(Captured(Exec(next, s, i + at).value, capture, s[i..i + at]))
    decreases n - at
  {
    if n == at {
    } else {
      ShrinkFinds(next, capture, s, i, lo, n - 1, at);
    }
  }

  lemma {:induction false} GrowFinds(next: Re, capture: bool, s: string, i: nat, n: nat, hi: nat, at: nat)
    requires n <= at <= hi && i + hi <= |s| && Exec(next, s, i + at).Some?
    requires forall p :: i + n <= p < i + at ==> Exec(next, s, p).None?
    ensures Grow(next, capture, s, i, n, hi) == Some(Captured(Exec(next, s, i + at).value, capture, s[i..i + at]))
    decreases at - n
  {
    if n == at {
    } else {
      GrowFinds(next, capture, s, i, n + 1, hi, at);
    }
  }

  lemma {:induction false} GrowFails(next: Re, capture: bool, s: string, i: nat, n: nat, hi: nat)
    requires n <= hi && i + hi <= |s| && forall p :: i + n <= p <= i + hi ==> Exec(next, s, p).None?
    ensures Grow(next, capture, s, i, n, hi).None?
    decreases hi - n
  {
    if n == hi {
    } else {
      GrowFails(next, capture, s, i, n + 1, hi);
    }
  }
}

/** The words of the forums' messages, in Russian and English: they are read for what they are, and so are the
    messages made of them. */
module Words {
  import opened Types
  import opened Regex
  import opened ParseTime

  const DAY_WORDS: set<string> := {
    "day", "days", "день", "дня", "дней", "сутки", "Day",
    "Days", "День", "Дня", "Дней", "Сутки"}

  const HOUR_WORDS: set<string> := {
    "hour", "hours", "hr", "час", "часа", "часов", "Hour",
    "Hours", "Hr", "Час", "Часа", "Часов"}

  const MINUTE_WORDS: set<string> := {
    "min", "minute", "minutes", "мин", "минут", "минута", "минуты",
    "Min", "Minute", "Minutes", "Мин", "Минут", "Минута", "Минуты"}

  const SECOND_WORDS: set<string> := {
    "sec", "second", "seconds", "сек", "секунд", "секунда", "секунды",
    "Sec", "Second", "Seconds", "Сек", "Секунд", "Секунда", "Секунды"}

  /** What a word stands for, in seconds; 0 when it is none of these. */
  function Seconds(w: string): nat {
    if w in DAY_WORDS then 86400
    else if w in HOUR_WORDS then 3600
    else if w in MINUTE_WORDS then 60
    else if w in SECOND_WORDS then 1
    else 0
  }

  const CAPITALS := "ABCDEFGHIJKLMNOPQRSTUVWXYZ"
  const SMALL := "abcdefghijklmnopqrstuvwxyz"
  /** Both alphabets are letters in either case, and a capital is lowered to its small letter. */
  lemma LatinLetters(k: nat)
    requires k < 26
    ensures IsLetter(CAPITALS[k]) && IsLetter(SMALL[k]) && Lower(CAPITALS[k]) == SMALL[k] && Lower(SMALL[k]) == SMALL[k]
  {
  }

  /** The Cyrillic alphabet, in four parts. */
  lemma CyrillicLetters(capitals: string, small: string, k: nat)
    requires (capitals, small) in {("АБВГДЕЖЗ", "абвгдежз"), ("ИЙКЛМНОП", "ийклмноп"),
                                   ("РСТУФХЦЧ", "рстуфхцч"), ("ШЩЪЫЬЭЮЯЁ", "шщъыьэюяё")}
    requires k < |small|
    ensures |capitals| == |small| && IsLetter(capitals[k]) && IsLetter(small[k])
    ensures Lower(capitals[k]) == small[k] && Lower(small[k]) == small[k]
  {
    if capitals == "АБВГДЕЖЗ" {
      FirstQuarter(k);
    } else if capitals == "ИЙКЛМНОП" {
      SecondQuarter(k);
    } else if capitals == "РСТУФХЦЧ" {
      ThirdQuarter(k);
    } else {
      LastQuarter(k);
    }
  }

  lemma FirstQuarter(k: nat)
    requires k < 8
    ensures var c, d := "АБВГДЕЖЗ"[k], "абвгдежз"[k];
      IsLetter(c) && IsLetter(d) && Lower(c) == d && Lower(d) == d
  {
  }

  lemma SecondQuarter(k: nat)
    requires k < 8
    ensures var c, d := "ИЙКЛМНОП"[k], "ийклмноп"[k];
      IsLetter(c) && IsLetter(d) && Lower(c) == d && Lower(d) == d
  {
  }

  lemma ThirdQuarter(k: nat)
    requires k < 8
    ensures var c, d := "РСТУФХЦЧ"[k], "рстуфхцч"[k];
      IsLetter(c) && IsLetter(d) && Lower(c) == d && Lower(d) == d
  {
  }

  lemma LastQuarter(k: nat)
    requires k < 9
    ensures var c, d := "ШЩЪЫЬЭЮЯЁ"[k], "шщъыьэюяё"[k];
      IsLetter(c) && IsLetter(d) && Lower(c) == d && Lower(d) == d
  {
  }

  const FOLDED := "\U{017F}\U{212A}\U{1C80}\U{1C81}\U{1C82}\U{1C83}\U{1C84}\U{1C85}\U{1C86}"

  /** So are the characters that fold to one of them, and nothing of what stands between words. */
  lemma FoldedLetters(k: nat, c: char)
    requires k < 9
    ensures IsLetter(FOLDED[k])
    ensures c in {' ', ',', '.', ':', ';', '!', '-', '(', ')', '0', '9', '\n', '\t', '/'} ==> !IsLetter(c)
  {
  }

  lemma Begins(w: string, begin: string)
    requires |begin| <= |w| && forall k :: 0 <= k < |begin| ==> Lower(w[k]) == begin[k]
    ensures begin <= ToLower(w)
  {
    assert ToLower(w)[..|begin|] == begin;
  }

  lemma DayLikeWords(w: string)
    requires w in {"day", "days", "Day", "Days"}
    ensures All(w, Letter) && "day" <= ToLower(w)
  {
    Begins(w, "day");
  }

  lemma DenLikeWords(w: string)
    requires w in {"день", "День"}
    ensures All(w, Letter) && "ден" <= ToLower(w)
  {
    Begins(w, "ден");
  }

  lemma DnLikeWords(w: string)
    requires w in {"дня", "дней", "Дня", "Дней"}
    ensures All(w, Letter) && "дн" <= ToLower(w)
  {
    Begins(w, "дн");
  }

  lemma SutLikeWords(w: string)
    requires w in {"сутки", "Сутки"}
    ensures All(w, Letter) && "сут" <= ToLower(w)
  {
    Begins(w, "сут");
  }

  lemma DayWords(w: string)
    requires w in DAY_WORDS
    ensures All(w, Letter) && Unit(w) == Some(86400 * SECOND)
  {
    if w in {"day", "days", "Day", "Days"} {
      DayLikeWords(w);
    } else if w in {"день", "День"} {
      DenLikeWords(w);
    } else if w in {"дня", "дней", "Дня", "Дней"} {
      DnLikeWords(w);
    } else {
      SutLikeWords(w);
    }
    BeginningDecides(w);
  }

  lemma HourLikeWords(w: string)
    requires w in {"hour", "hours", "Hour", "Hours"}
    ensures All(w, Letter) && "hour" <= ToLower(w)
  {
    Begins(w, "hour");
  }

  lemma HrLikeWords(w: string)
    requires w in {"hr", "Hr"}
    ensures All(w, Letter) && "hr" <= ToLower(w)
  {
    Begins(w, "hr");
  }

  lemma ChasLikeWords(w: string)
    requires w in {"час", "часа", "часов", "Час", "Часа", "Часов"}
    ensures All(w, Letter) && "час" <= ToLower(w)
  {
    Begins(w, "час");
  }

  lemma HourWords(w: string)
    requires w in HOUR_WORDS
    ensures All(w, Letter) && Unit(w) == Some(3600 * SECOND)
  {
    if w in {"hour", "hours", "Hour", "Hours"} {
      HourLikeWords(w);
    } else if w in {"hr", "Hr"} {
      HrLikeWords(w);
    } else {
      ChasLikeWords(w);
    }
    BeginningDecides(w);
  }

  lemma MinLikeWords(w: string)
    requires w in {"min", "minute", "minutes", "Min", "Minute", "Minutes"}
    ensures All(w, Letter) && "min" <= ToLower(w)
  {
    Begins(w, "min");
  }

  lemma MinutLikeWords(w: string)
    requires w in {"мин", "минут", "минута", "минуты", "Мин", "Минут", "Минута", "Минуты"}
    ensures All(w, Letter) && "мин" <= ToLower(w)
  {
    Begins(w, "мин");
  }

  lemma MinuteWords(w: string)
    requires w in MINUTE_WORDS
    ensures All(w, Letter) && Unit(w) == Some(60 * SECOND)
  {
    if w in {"min", "minute", "minutes", "Min", "Minute", "Minutes"} {
      MinLikeWords(w);
    } else {
      MinutLikeWords(w);
    }
    BeginningDecides(w);
  }

  lemma SecLikeWords(w: string)
    requires w in {"sec", "second", "seconds", "Sec", "Second", "Seconds"}
    ensures All(w, Letter) && "sec" <= ToLower(w)
  {
    Begins(w, "sec");
  }

  lemma SekLikeWords(w: string)
    requires w in {"сек", "секунд", "секунда", "секунды", "Сек", "Секунд", "Секунда", "Секунды"}
    ensures All(w, Letter) && "сек" <= ToLower(w)
  {
    Begins(w, "сек");
  }

  lemma SecondWords(w: string)
    requires w in SECOND_WORDS
    ensures All(w, Letter) && Unit(w) == Some(1 * SECOND)
  {
    if w in {"sec", "second", "seconds", "Sec", "Second", "Seconds"} {
      SecLikeWords(w);
    } else {
      SekLikeWords(w);
    }
    BeginningDecides(w);
  }

  lemma KnownWord(w: string)
    requires w in DAY_WORDS + HOUR_WORDS + MINUTE_WORDS + SECOND_WORDS
    ensures w != "" && All(w, Letter) && Unit(w) == Some(Seconds(w) * SECOND)
  {
    if w in DAY_WORDS {
      DayWords(w);
    } else if w in HOUR_WORDS {
      HourWords(w);
    } else if w in MINUTE_WORDS {
      MinuteWords(w);
    } else {
      SecondWords(w);
    }
  }

  /** A count and a known word, with white space between them, and any text without digits behind. */
  datatype Part = Part(n: nat, gap: string, word: string, rest: string)

  predicate Usual(p: Part) {
    && p.n <= 0x7FFF_FFFF_FFFF_FFFF && p.word in DAY_WORDS + HOUR_WORDS + MINUTE_WORDS + SECOND_WORDS
    && (forall k :: 0 <= k < |p.gap| ==> p.gap[k] in {' ', '\t', '\n', '\r', '\U{000C}'})
    && (forall k :: 0 <= k < |p.rest| ==> !('0' <= p.rest[k] <= '9'))
  }

  function ItemOf(p: Part): Item {
    Item(Decimal(p.n), p.gap, p.word, p.rest)
  }

  function ItemsOf(ps: seq<Part>): (items: seq<Item>)
    ensures |items| == |ps| && forall k :: 0 <= k < |ps| ==> items[k] == ItemOf(ps[k])
  {
    seq(|ps|, k requires 0 <= k < |ps| => ItemOf(ps[k]))
  }

  /** The text: lead, and count, gap, word and rest of each part. */
  function Message(ps: seq<Part>): string {
    if ps == [] then "" else Decimal(ps[0].n) + ps[0].gap + ps[0].word + ps[0].rest + Message(ps[1..])
  }

  /** The sum of the counts times the seconds of their words, in nanoseconds. */
  function Duration(ps: seq<Part>): nat {
    if ps == [] then 0 else Duration(ps[1..]) + ps[0].n * Seconds(ps[0].word) * 1_000_000_000
  }

  lemma PartIsRecognised(p: Part)
    requires Usual(p)
    ensures Recognised(ItemOf(p)) && Fits(ItemOf(p))
    ensures Value(Decimal(p.n)) == p.n
  {
    KnownWord(p.word);
    DecimalValue(p.n);
    DecimalIsDigits(p.n);
    assert All(p.gap, Blank);
    assert DigitFree(p.rest);
  }

  lemma DecimalIsDigits(n: nat)
    ensures All(Decimal(n), Digit)
  {
    assert forall k :: 0 <= k < |Decimal(n)| ==> IsDigit(Decimal(n)[k]);
  }

  lemma {:induction false} MessageIsRendered(ps: seq<Part>)
    ensures Message(ps) == Render(ItemsOf(ps))
  {
    if ps == [] {
    } else {
      MessageIsRendered(ps[1..]);
      assert ItemsOf(ps)[1..] == ItemsOf(ps[1..]);
    }
  }

  lemma {:induction false} MeantIsDuration(ps: seq<Part>)
    requires forall k :: 0 <= k < |ps| ==> Usual(ps[k])
    ensures forall k :: 0 <= k < |ps| ==> Recognised(ItemsOf(ps)[k]) && Fits(ItemsOf(ps)[k])
    ensures Meant(ItemsOf(ps)) == Duration(ps)
  {
    if ps == [] {
    } else {
      MeantIsDuration(ps[1..]);
      PartIsRecognised(ps[0]);
      MeantCons(ps);
    }
  }

  lemma MeantCons(ps: seq<Part>)
    requires ps != [] && Usual(ps[0]) && (forall k :: 0 <= k < |ps[1..]| ==> Recognised(ItemsOf(ps[1..])[k]))
    requires Recognised(ItemOf(ps[0])) && Fits(ItemOf(ps[0])) && Value(Decimal(ps[0].n)) == ps[0].n
    ensures forall k :: 0 <= k < |ps| ==> Recognised(ItemsOf(ps)[k])
    ensures Meant(ItemsOf(ps)) == Meant(ItemsOf(ps[1..])) + ps[0].n * Seconds(ps[0].word) * 1_000_000_000
  {
    assert ItemsOf(ps)[1..] == ItemsOf(ps[1..]);
    forall k | 0 <= k < |ps| ensures Recognised(ItemsOf(ps)[k]) {
      assert k > 0 ==> ItemsOf(ps)[k] == ItemsOf(ps[1..])[k - 1];
    }
    KnownWord(ps[0].word);
    Thrice(ps[0].n, Seconds(ps[0].word));
  }

  lemma Thrice(n: nat, seconds: nat)
    ensures n * (seconds * SECOND) == n * seconds * 1_000_000_000
  {
  }

  /** For every message of counts and these words, in any mix, with any text without digits before, between and
      behind: the pairs found are worth exactly the duration it says, and something is found as soon as there is
      one pair. */
  lemma WordsReadBack(lead: string, ps: seq<Part>)
    requires (forall k :: 0 <= k < |lead| ==> !('0' <= lead[k] <= '9')) && forall k :: 0 <= k < |ps| ==> Usual(ps[k])
    ensures IdealWait(FindAll(NUM_UNIT, lead + Message(ps), 0)) == Duration(ps)
    ensures Mentions(FindAll(NUM_UNIT, lead + Message(ps), 0)) <==> ps != []
  {
    MessageIsRendered(ps);
    MeantIsDuration(ps);
    assert DigitFree(lead);
    MessageReadsBack(lead, ItemsOf(ps));
    assert ps != [] ==> Fits(ItemsOf(ps)[0]);
  }
}

/** Turning a pasted browser cookie string into the session list, and back. */
module Cookies {
  import opened Types
  import opened Text

  datatype Cookie = Cookie(name: string, value: string)

  /** Where `c` first occurs, or the length when it does not. */
  function IndexOf(s: string, c: char): (i: nat)
    ensures i <= |s| && (i < |s| ==> s[i] == c) && forall k :: 0 <= k < i ==> s[k] != c
  {
    if s == "" || s[0] == c then 0 else 1 + IndexOf(s[1..], c)
  }

  function Split(s: string): seq<string>
    decreases |s|
  {
    var k := IndexOf(s, ';');
    if k == |s| then [s] else [s[..k]] + Split(s[k + 1..])
  }

  /** One part of the header; None when it is passed over. */
  function ParsePart(text: string): Option<Cookie> {
    var part := Trim(text);
    var eq := IndexOf(part, '=');
    if part == "" || eq == |part| || eq == 0 || Trim(part[..eq]) == "" then None
    else Some(Cookie(Trim(part[..eq]), Trim(part[eq + 1..])))
  }

  function ToSeq<T>(x: Option<T>): seq<T> {
    if x.Some? then [x.value] else []
  }

  function ParseParts(parts: seq<string>): seq<Cookie> {
    if parts == [] then [] else ParseParts(parts[..|parts| - 1]) + ToSeq(ParsePart(parts[|parts| - 1]))
  }

  function ParseHeader(header: string): seq<Cookie> {
    ParseParts(Split(header))
  }

  /** The session to store and the number of cookies; no session when nothing was recognised. */
  method CookiesFromHeader(header: string) returns (session: Option<seq<Cookie>>, n: nat)
    ensures session == if ParseHeader(header) == [] then None else Some(ParseHeader(header))
    ensures n == |ParseHeader(header)|
  {
    var cs := [];
    var parts := Split(header);
    for i := 0 to |parts|
      invariant cs == ParseParts(parts[..i])
    {
      assert parts[..i + 1][..i] == parts[..i];
      var part := Trim(parts[i]);
      if part == "" {
        continue;
      }
      var eq := IndexOf(part, '=');
      if eq == |part| || eq == 0 {
        continue;
      }
      var name := Trim(part[..eq]);
      var value := Trim(part[eq + 1..]);
      if name == "" {
        continue;
      }
      cs := cs + [Cookie(name, value)];
    }
    assert parts[..|parts|] == parts;
    if |cs| == 0 {
      return None, 0;
    }
    return Some(cs), |cs|;
  }

  ghost predicate Without(s: string, c: char) {
    forall k :: 0 <= k < |s| ==> s[k] != c
  }

  /** A pair that survives the header syntax: trimmed, the name not empty and without `=`, no `;` at all.
      The value may hold `=`. */
  ghost predicate Clean(c: Cookie) {
    && c.name != "" && Tight(c.name) && Without(c.name, '=') && Without(c.name, ';')
    && Tight(c.value) && Without(c.value, ';')
  }

  function Show(c: Cookie): string {
    c.name + "=" + c.value
  }

  function Print(cs: seq<Cookie>): string {
    if cs == [] then "" else if |cs| == 1 then Show(cs[0]) else Show(cs[0]) + ";" + (" " + Print(cs[1..]))
  }

  lemma IndexIs(s: string, c: char, i: nat)
    requires i <= |s| && (forall k :: 0 <= k < i ==> s[k] != c) && (i < |s| ==> s[i] == c)
    ensures IndexOf(s, c) == i
  {
  }

  lemma SplitHead(a: string, rest: string)
    requires Without(a, ';')
    ensures Split(a + ";" + rest) == [a] + Split(rest) && Split(a) == [a]
  {
    var s := a + ";" + rest;
    IndexIs(s, ';', |a|);
    IndexIs(a, ';', |a|);
    assert s[..|a|] == a && s[|a| + 1..] == rest;
  }

  lemma {:induction false} ParsePartsCons(p: string, parts: seq<string>)
    ensures ParseParts([p] + parts) == ToSeq(ParsePart(p)) + ParseParts(parts)
    decreases |parts|
  {
    var all := [p] + parts;
    var head := ToSeq(ParsePart(p));
    if parts == [] {
      assert all[..0] == [];
      assert [] + head == head + [];
    } else {
      var front, last := parts[..|parts| - 1], ToSeq(ParsePart(parts[|parts| - 1]));
      ParsePartsCons(p, front);
      assert all[..|all| - 1] == [p] + front;
      assert (head + ParseParts(front)) + last == head + (ParseParts(front) + last);
    }
  }

  lemma ShownParses(pad: string, c: Cookie)
    requires Clean(c) && AllSpace(pad)
    ensures ParsePart(pad + Show(c)) == Some(c)
  {
    var part := Show(c);
    assert Tight(part) by {
      assert part[|part| - 1] == if c.value == "" then '=' else c.value[|c.value| - 1];
    }
    TrimPadded(pad, part, "");
    assert pad + part + "" == pad + part;
    IndexIs(part, '=', |c.name|);
    assert part[..|c.name|] == c.name && part[|c.name| + 1..] == c.value;
    TrimTight(c.name);
    TrimTight(c.value);
  }

  lemma PadParses(pad: string)
    requires AllSpace(pad) && Without(pad, ';')
    ensures ParseHeader(pad) == []
  {
    SplitHead(pad, "");
    TrimPadded(pad, "", "");
    assert pad + "" + "" == pad;
    OnePart(pad);
  }

  /** The header's first part, and the rest of the header if there is one. */
  lemma FirstParses(pad: string, c: Cookie, rest: string)
    requires AllSpace(pad) && Without(pad, ';') && Clean(c)
    ensures ParseHeader(pad + Show(c)) == [c]
    ensures ParseHeader(pad + (Show(c) + ";" + rest)) == [c] + ParseHeader(rest)
  {
    var head := pad + Show(c);
    ShownParses(pad, c);
    WithoutSemicolon(pad, c);
    SplitHead(head, rest);
    Glue(pad, Show(c), rest);
    OnePart(head);
    ParsePartsCons(head, Split(rest));
  }

  lemma WithoutSemicolon(pad: string, c: Cookie)
    requires Without(pad, ';') && Clean(c)
    ensures Without(pad + Show(c), ';')
  {
  }

  lemma Glue(a: string, b: string, c: string)
    ensures a + (b + ";" + c) == a + b + ";" + c
  {
  }

  lemma OnePart(p: string)
    ensures ParseParts([p]) == ToSeq(ParsePart(p))
  {
    assert [p][..0] == [];
  }

  /** Printing clean pairs and parsing them again gives the same list. */
  lemma {:induction false} PrintParses(pad: string, cs: seq<Cookie>)
    requires AllSpace(pad) && Without(pad, ';') && forall k :: 0 <= k < |cs| ==> Clean(cs[k])
    ensures ParseHeader(pad + Print(cs)) == cs
    decreases |cs|
  {
    if cs == [] {
      assert pad + "" == pad;
      PadParses(pad);
    } else if |cs| == 1 {
      PrintOne(pad, cs);
    } else {
      assert forall k :: 0 <= k < |cs[1..]| ==> cs[1..][k] == cs[k + 1];
      PrintParses(" ", cs[1..]);
      PrintStep(pad, cs);
    }
  }

  lemma PrintOne(pad: string, cs: seq<Cookie>)
    requires AllSpace(pad) && Without(pad, ';') && |cs| == 1 && Clean(cs[0])
    ensures ParseHeader(pad + Print(cs)) == cs
  {
    FirstParses(pad, cs[0], "");
    assert [cs[0]] == cs;
  }

  lemma PrintStep(pad: string, cs: seq<Cookie>)
    requires AllSpace(pad) && Without(pad, ';') && |cs| > 1 && Clean(cs[0])
    requires ParseHeader(" " + Print(cs[1..])) == cs[1..]
    ensures ParseHeader(pad + Print(cs)) == cs
  {
    FirstParses(pad, cs[0], " " + Print(cs[1..]));
    assert [cs[0]] + cs[1..] == cs;
  }

  lemma {:induction false} SplitWithout(s: string)
    ensures forall p :: p in Split(s) ==> Without(p, ';')
    decreases |s|
  {
    var k := IndexOf(s, ';');
    if k == |s| {
    } else {
      SplitWithout(s[k + 1..]);
    }
  }

  lemma TrimWithin(s: string, c: char)
    requires Without(s, c)
    ensures Without(Trim(s), c)
  {
    TrimLeftWithin(s, c);
    TrimRightWithin(TrimLeft(s), c);
  }

  lemma {:induction false} TrimLeftWithin(s: string, c: char)
    requires Without(s, c)
    ensures Without(TrimLeft(s), c)
  {
    if s == "" || !IsSpace(s[0]) {
    } else {
      TrimLeftWithin(s[1..], c);
    }
  }

  lemma {:induction false} TrimRightWithin(s: string, c: char)
    requires Without(s, c)
    ensures Without(TrimRight(s), c)
  {
    if s == "" || !IsSpace(s[|s| - 1]) {
    } else {
      TrimRightWithin(s[..|s| - 1], c);
    }
  }

  lemma ParsedIsClean(text: string)
    requires Without(text, ';') && ParsePart(text).Some?
    ensures Clean(ParsePart(text).value)
  {
    var part := Trim(text);
    var eq := IndexOf(part, '=');
    TrimWithin(text, ';');
    TrimWithin(part[..eq], ';');
    TrimWithin(part[..eq], '=');
    TrimWithin(part[eq + 1..], ';');
    TrimIsTight(part[..eq]);
    TrimIsTight(part[eq + 1..]);
  }

  lemma {:induction false} ParsedAllClean(parts: seq<string>)
    requires forall p :: p in parts ==> Without(p, ';')
    ensures forall k :: 0 <= k < |ParseParts(parts)| ==> Clean(ParseParts(parts)[k])
  {
    if parts == [] {
    } else {
      ParsedAllClean(parts[..|parts| - 1]);
      if ParsePart(parts[|parts| - 1]).Some? {
        ParsedIsClean(parts[|parts| - 1]);
      }
    }
  }

  /** For every header whatever, printing what was parsed and parsing it again changes nothing. */
  lemma ParsePrintParse(header: string)
    ensures ParseHeader(Print(ParseHeader(header))) == ParseHeader(header)
  {
    SplitWithout(header);
    ParsedAllClean(Split(header));
    PrintParses("", ParseHeader(header));
    assert "" + Print(ParseHeader(header)) == Print(ParseHeader(header));
  }

  // ----- in plain characters -----

  /** A part without "=", with nothing before it, or with nothing but white space there, is passed over. */
  lemma PartsPassedOver(text: string)
    requires (forall k :: 0 <= k < |text| ==> text[k] != '=')
             || exists k :: 0 <= k < |text| && text[k] == '=' && White(text[..k])
    ensures ParsePart(text) == None
  {
    if forall k :: 0 <= k < |text| ==> text[k] != '=' {
      TrimWithin(text, '=');
    } else {
      var k :| 0 <= k < |text| && text[k] == '=' && White(text[..k]);
      WhiteIsSpace(text[..k]);
      LeadingBlank(text, k);
    }
  }

  lemma {:induction false} LeadingBlank(text: string, k: nat)
    requires k < |text| && text[k] == '=' && AllSpace(text[..k])
    ensures Trim(text) != "" && Trim(text)[0] == '='
    decreases k
  {
    if k == 0 {
      TrimRightMeaning(text);
      assert TrimLeft(text) == text;
      NotAllTrimmed(text);
    } else {
      assert text[..k][0] == text[0] && text[1..][..k - 1] == text[..k][1..];
      LeadingBlank(text[1..], k - 1);
    }
  }

  /** Trimming on the right leaves a text that does not begin with white space its beginning. */
  lemma {:induction false} NotAllTrimmed(s: string)
    requires s != "" && s[0] == '='
    ensures TrimRight(s) != ""
  {
    if |s| == 1 || !IsSpace(s[|s| - 1]) {
    } else {
      NotAllTrimmed(s[..|s| - 1]);
    }
  }

  /** A name and a value, each with white space around them, are kept without it. */
  lemma PartKept(a: string, name: string, b: string, c: string, value: string, d: string)
    requires White(a) && White(b) && White(c) && White(d)
    requires name != "" && !White(name[..1]) && !White(name[|name| - 1..]) && forall k :: 0 <= k < |name| ==> name[k] != '='
    requires value != "" && !White(value[..1]) && !White(value[|value| - 1..])
    ensures ParsePart(a + (name + b + "=" + (c + value)) + d) == Some(Cookie(name, value))
  {
    var part := name + b + "=" + (c + value);
    assert part[..1] == name[..1] && part[|part| - 1..] == value[|value| - 1..];
    TrimStrips(a, part, d);
    forall k | 0 <= k < |b| ensures b[k] != '=' {
      assert b[k] in b;
    }
    IndexIs(part, '=', |name + b|);
    assert part[..|name + b|] == "" + name + b && part[|name + b| + 1..] == c + value + "";
    TrimStrips("", name, b);
    TrimStrips(c, value, "");
  }

  function Join(parts: seq<string>): string {
    if parts == [] then "" else if |parts| == 1 then parts[0] else parts[0] + ";" + Join(parts[1..])
  }

  /** The parts of a header are what stands between its semicolons. */
  lemma {:induction false} JoinSplits(parts: seq<string>)
    requires parts != [] && forall j :: 0 <= j < |parts| ==> forall k :: 0 <= k < |parts[j]| ==> parts[j][k] != ';'
    ensures Split(Join(parts)) == parts
    decreases |parts|
  {
    assert Without(parts[0], ';');
    if |parts| == 1 {
      SplitHead(parts[0], "");
    } else {
      assert forall j :: 0 <= j < |parts[1..]| ==> parts[1..][j] == parts[j + 1];
      JoinSplits(parts[1..]);
      SplitHead(parts[0], Join(parts[1..]));
    }
  }

  /** And its cookies are those of its parts, in order. */
  lemma HeaderIsItsParts(parts: seq<string>, last: string)
    requires forall j :: 0 <= j < |parts| ==> forall k :: 0 <= k < |parts[j]| ==> parts[j][k] != ';'
    requires parts != [] && forall k :: 0 <= k < |last| ==> last[k] != ';'
    ensures ParseHeader(Join(parts + [last])) ==
            ParseHeader(Join(parts)) + if ParsePart(last).Some? then [ParsePart(last).value] else []
  {
    JoinSplits(parts);
    JoinSplits(parts + [last]);
    assert (parts + [last])[..|parts|] == parts;
  }
}

/** Trimming white space, as strings.TrimSpace does. */
module Text {
  /** Unicode White_Space. */
  predicate IsSpace(c: char) {
    || '\t' <= c <= '\r' || c == ' ' || c == '\U{0085}' || c == '\U{00A0}' || c == '\U{1680}'
    || '\U{2000}' <= c <= '\U{200A}' || c == '\U{2028}' || c == '\U{2029}'
    || c == '\U{202F}' || c == '\U{205F}' || c == '\U{3000}'
  }

  predicate Tight(s: string) {
    s == "" || (!IsSpace(s[0]) && !IsSpace(s[|s| - 1]))
  }

  function TrimLeft(s: string): string {
    if s != "" && IsSpace(s[0]) then TrimLeft(s[1..]) else s
  }

  function TrimRight(s: string): string {
    if s != "" && IsSpace(s[|s| - 1]) then TrimRight(s[..|s| - 1]) else s
  }

  function Trim(s: string): string {
    TrimRight(TrimLeft(s))
  }

  ghost predicate AllSpace(s: string) {
    forall k :: 0 <= k < |s| ==> IsSpace(s[k])
  }

  lemma {:induction false} TrimLeftMeaning(s: string)
    ensures TrimLeft(s) == "" || !IsSpace(TrimLeft(s)[0])
    ensures exists a :: AllSpace(a) && s == a + TrimLeft(s)
  {
    if s != "" && IsSpace(s[0]) {
      TrimLeftMeaning(s[1..]);
      var a :| AllSpace(a) && s[1..] == a + TrimLeft(s[1..]);
      assert s == ([s[0]] + a) + TrimLeft(s) && AllSpace([s[0]] + a);
    } else {
      assert s == "" + TrimLeft(s) && AllSpace("");
    }
  }

  lemma {:induction false} TrimRightMeaning(s: string)
    ensures TrimRight(s) == "" || !IsSpace(TrimRight(s)[|TrimRight(s)| - 1])
    ensures TrimRight(s) != "" ==> TrimRight(s)[0] == s[0]
    ensures TrimRight(s) <= s && AllSpace(s[|TrimRight(s)|..])
  {
    if s == "" || !IsSpace(s[|s| - 1]) {
    } else {
      TrimRightMeaning(s[..|s| - 1]);
      var r := TrimRight(s);
      assert s[|r|..] == s[..|s| - 1][|r|..] + [s[|s| - 1]];
    }
  }

  lemma TrimIsTight(s: string)
    ensures Tight(Trim(s))
  {
    TrimLeftMeaning(s);
    TrimRightMeaning(TrimLeft(s));
  }

  lemma {:induction false} TrimPadded(a: string, s: string, b: string)
    requires AllSpace(a) && AllSpace(b) && Tight(s)
    ensures Trim(a + s + b) == s
    decreases |a| + |b|
  {
    var t := a + s + b;
    if a != "" {
      assert t[1..] == a[1..] + s + b;
      TrimPadded(a[1..], s, b);
    } else if s == "" {
      if b != "" {
        assert t == b[..1] + "" + b[1..];
        assert t[1..] == "" + "" + b[1..];
        TrimPadded("", "", b[1..]);
      }
    } else {
      assert TrimLeft(t) == t;
      DropRight(s, b);
      assert t == s + b;
    }
  }

  lemma {:induction false} DropRight(s: string, b: string)
    requires AllSpace(b) && s != "" && !IsSpace(s[|s| - 1])
    ensures TrimRight(s + b) == s
    decreases |b|
  {
    if b == "" {
      assert s + b == s;
    } else {
      assert (s + b)[..|s + b| - 1] == s + b[..|b| - 1];
      DropRight(s, b[..|b| - 1]);
    }
  }

  /** Trimming what is already tight changes nothing. */
  lemma TrimTight(s: string)
    requires Tight(s)
    ensures Trim(s) == s
  {
    TrimPadded("", s, "");
    assert "" + s + "" == s;
  }

  /** The white space of Unicode. */
  ghost predicate White(s: string) {
    forall k :: 0 <= k < |s| ==> s[k] in {
      '\t', '\n', '\U{000B}', '\U{000C}', '\r', ' ', '\U{0085}', '\U{00A0}', '\U{1680}',
      '\U{2000}', '\U{2001}', '\U{2002}', '\U{2003}', '\U{2004}', '\U{2005}', '\U{2006}', '\U{2007}', '\U{2008}', '\U{2009}',
      '\U{200A}', '\U{2028}', '\U{2029}', '\U{202F}', '\U{205F}', '\U{3000}'}
  }

  /** A text that neither begins nor ends with it is what is left when white space around it is trimmed. */
  lemma TrimStrips(a: string, s: string, b: string)
    requires White(a) && White(b) && (s == "" || (!White(s[..1]) && !White(s[|s| - 1..])))
    ensures Trim(a + s + b) == s
  {
    WhiteIsSpace(a);
    WhiteIsSpace(b);
    if s != "" {
      WhiteIsSpace(s[..1]);
      WhiteIsSpace(s[|s| - 1..]);
    }
    TrimPadded(a, s, b);
  }

  lemma WhiteIsSpace(s: string)
    ensures White(s) <==> AllSpace(s)
  {
  }
}

/** Field values of a loaded project record, the order `sort()` puts them in,
    and the text form the free-text search compares against. */
module Values {

  /** A value of a record field as the JSON loader produces it: a number
      (`project_no`), a text (`project_name`, `start_date`, ...) or a list of
      texts (`techniques_used`). */
  datatype Value = Num(n: int) | Str(s: string) | StrList(items: seq<string>)

  // ---------------------------------------------------------------------
  // Ordering, as CPython 2 compares these values
  // ---------------------------------------------------------------------

  /** Lexicographic order on texts, by code point. */
  predicate StrLe(a: string, b: string)
  {
    a == [] || (b != [] && (a[0] < b[0] || (a[0] == b[0] && StrLe(a[1..], b[1..]))))
  }

  predicate StrLt(a: string, b: string)
  {
    StrLe(a, b) && a != b
  }

  /** Lexicographic order on lists of texts: the first differing element
      decides, and a proper prefix comes first. */
  predicate ListLe(a: seq<string>, b: seq<string>)
  {
    a == [] || (b != [] && (StrLt(a[0], b[0]) || (a[0] == b[0] && ListLe(a[1..], b[1..]))))
  }

  /** Values of different kinds: numbers come before everything else, and the
      other kinds are ordered by type name ("list" before "unicode"). */
  function Rank(v: Value): nat
  {
    match v
    case Num(_) => 0
    case StrList(_) => 1
    case Str(_) => 2
  }

  predicate ValueLe(a: Value, b: Value)
  {
    match (a, b)
    case (Num(x), Num(y)) => x <= y
    case (Str(x), Str(y)) => StrLe(x, y)
    case (StrList(x), StrList(y)) => ListLe(x, y)
    case _ => Rank(a) < Rank(b)
  }

  lemma {:induction false} StrLeTotal(a: string, b: string)
    ensures StrLe(a, b) || StrLe(b, a)
  {
    if a != [] && b != [] && a[0] == b[0] {
      StrLeTotal(a[1..], b[1..]);
    }
  }

  lemma {:induction false} StrLeTrans(a: string, b: string, c: string)
    requires StrLe(a, b) && StrLe(b, c)
    ensures StrLe(a, c)
  {
    if a != [] && a[0] == b[0] && b[0] == c[0] {
      StrLeTrans(a[1..], b[1..], c[1..]);
    }
  }

  lemma {:induction false} StrLeAntisym(a: string, b: string)
    ensures StrLe(a, b) && StrLe(b, a) ==> a == b
  {
    if a != [] && b != [] && a[0] == b[0] {
      StrLeAntisym(a[1..], b[1..]);
      assert a == [a[0]] + a[1..];
      assert b == [b[0]] + b[1..];
    }
  }

  lemma {:induction false} ListLeTotal(a: seq<string>, b: seq<string>)
    ensures ListLe(a, b) || ListLe(b, a)
  {
    if a != [] && b != [] {
      if a[0] == b[0] {
        ListLeTotal(a[1..], b[1..]);
      } else {
        StrLeTotal(a[0], b[0]);
      }
    }
  }

  lemma {:induction false} ListLeTrans(a: seq<string>, b: seq<string>, c: seq<string>)
    requires ListLe(a, b) && ListLe(b, c)
    ensures ListLe(a, c)
  {
    if a != [] {
      if a[0] == b[0] && b[0] == c[0] {
        ListLeTrans(a[1..], b[1..], c[1..]);
      } else if StrLt(a[0], b[0]) && StrLt(b[0], c[0]) {
        StrLeTrans(a[0], b[0], c[0]);
        StrLeAntisym(b[0], c[0]);
      }
    }
  }

  lemma ValueLeTotal(a: Value, b: Value)
    ensures ValueLe(a, b) || ValueLe(b, a)
  {
    match (a, b)
    case (Str(x), Str(y)) => StrLeTotal(x, y);
    case (StrList(x), StrList(y)) => ListLeTotal(x, y);
    case _ =>
  }

  lemma ValueLeTrans(a: Value, b: Value, c: Value)
    requires ValueLe(a, b) && ValueLe(b, c)
    ensures ValueLe(a, c)
  {
    if a.Str? && b.Str? && c.Str? {
      StrLeTrans(a.s, b.s, c.s);
    } else if a.StrList? && b.StrList? && c.StrList? {
      ListLeTrans(a.items, b.items, c.items);
    }
  }

  // ---------------------------------------------------------------------
  // Text form and lower-casing used by the free-text search
  // ---------------------------------------------------------------------

  function DigitChar(d: nat): char
    requires d < 10
  {
    ('0' as int + d) as char
  }

  function Digits(n: nat): string
  {
    if n < 10 then [DigitChar(n)] else Digits(n / 10) + [DigitChar(n % 10)]
  }

  function IntText(i: int): string
  {
    if i < 0 then "-" + Digits(-i) else Digits(i)
  }

  function HexDigit(d: nat): char
    requires d < 16
  {
    if d < 10 then DigitChar(d) else ('a' as int + d - 10) as char
  }

  /** `n` in lower-case hexadecimal, in exactly `width` digits. */
  function Hex(n: nat, width: nat): string
  {
    if width == 0 then "" else Hex(n / 16, width - 1) + [HexDigit(n % 16)]
  }

  /** The quote `repr` puts around a text: `'`, unless the text holds a `'`
      and no `"`. */
  function QuoteFor(s: string): char
  {
    if '\'' in s && '"' !in s then '"' else '\''
  }

  /** How `repr` writes one character between `quote`s: the quote and the
      backslash escaped, tab, newline and carriage return by name, other
      control characters and everything from U+007F up as a `\x`, `\u` or
      `\U` escape, and printable ASCII as itself. */
  function EscapeChar(c: char, quote: char): string
  {
    if c == quote || c == '\\' then ['\\', c]
    else if c as int >= 0x1_0000 then "\\U" + Hex(c as int, 8)
    else if c as int >= 0x100 then "\\u" + Hex(c as int, 4)
    else if c == '\t' then "\\t"
    else if c == '\n' then "\\n"
    else if c == '\r' then "\\r"
    else if c < ' ' || c as int >= 0x7F then "\\x" + Hex(c as int, 2)
    else [c]
  }

  function Escaped(s: string, quote: char): string
  {
    if s == [] then "" else EscapeChar(s[0], quote) + Escaped(s[1..], quote)
  }

  /** `repr` of a text: `u`, the quote, the escaped characters, the quote. */
  function ReprText(s: string): string
  {
    var quote := QuoteFor(s);
    "u" + [quote] + Escaped(s, quote) + [quote]
  }

  /** The items of a list, each written by `ReprText`, separated by ", ". */
  function QuotedItems(items: seq<string>): string
  {
    if items == [] then ""
    else if |items| == 1 then ReprText(items[0])
    else ReprText(items[0]) + ", " + QuotedItems(items[1..])
  }

  /** The text a value converts to: a number in decimal, a text as itself,
      a list as its `repr`, such as `[u'a', u'\xe5']`. */
  function ToText(v: Value): string
  {
    match v
    case Num(n) => IntText(n)
    case Str(s) => s
    case StrList(items) => "[" + QuotedItems(items) + "]"
  }

  /** Printable ASCII, from space to tilde. */
  predicate Printable(s: string)
  {
    forall k :: 0 <= k < |s| ==> ' ' <= s[k] <= '~'
  }

  lemma {:induction false} HexPrintable(n: nat, width: nat)
    ensures Printable(Hex(n, width))
  {
    if width > 0 {
      HexPrintable(n / 16, width - 1);
    }
  }

  lemma {:induction false} EscapedPrintable(s: string, quote: char)
    requires ' ' <= quote <= '~'
    ensures Printable(Escaped(s, quote))
  {
    if s != [] {
      var c := s[0];
      HexPrintable(c as int, 8);
      HexPrintable(c as int, 4);
      HexPrintable(c as int, 2);
      EscapedPrintable(s[1..], quote);
    }
  }

  lemma {:induction false} QuotedItemsPrintable(items: seq<string>)
    ensures Printable(QuotedItems(items))
  {
    if items != [] {
      EscapedPrintable(items[0], QuoteFor(items[0]));
      QuotedItemsPrintable(items[1..]);
    }
  }

  /** A list field converts to printable ASCII only: whatever its items hold,
      characters outside printable ASCII appear only as escapes. */
  lemma ListTextPrintable(items: seq<string>)
    ensures Printable(ToText(StrList(items)))
  {
    QuotedItemsPrintable(items);
  }

  /** A Latin-1 letter inside a list item is written as an escape:
      `repr` of `ä` is `u'\xe4'`, in which no `ä` occurs. */
  lemma ReprEscapeExample()
    ensures ReprText("\U{E4}") == "u'\\xe4'"
  {
    var c := '\U{E4}';
    assert c as int == 228;
    assert Hex(14, 1) == Hex(0, 0) + [HexDigit(14)] == "e";
    assert Hex(228, 2) == Hex(14, 1) + [HexDigit(4)] == "e4";
    assert EscapeChar(c, '\'') == "\\x" + Hex(228, 2);
    assert Escaped([c], '\'') == EscapeChar(c, '\'') + Escaped([], '\'');
    assert QuoteFor([c]) == '\'';
  }

  /** Lower-casing of one character: ASCII and Latin-1 capitals. */
  function LowerChar(c: char): char
  {
    if 'A' <= c <= 'Z' || ('\U{C0}' <= c <= '\U{DE}' && c != '\U{D7}') then
      (c as int + 32) as char
    else
      c
  }

  function Lower(s: string): string
  {
    if s == [] then [] else [LowerChar(s[0])] + Lower(s[1..])
  }

  predicate IsPrefix(q: string, s: string)
  {
    |q| <= |s| && s[..|q|] == q
  }

  /** Lower-casing works character by character. */
  lemma {:induction false} LowerAt(s: string)
    ensures |Lower(s)| == |s|
    ensures forall i :: 0 <= i < |s| ==> Lower(s)[i] == LowerChar(s[i])
  {
    if s != [] {
      LowerAt(s[1..]);
    }
  }

  /** Lower-casing keeps printable ASCII printable, character for character. */
  lemma {:induction false} LowerPrintable(s: string)
    requires Printable(s)
    ensures |Lower(s)| == |s| && Printable(Lower(s))
  {
    if s != [] {
      LowerPrintable(s[1..]);
    }
  }

  /** The substring test `q in s`, scanning `s` from the left. */
  predicate IsSubstring(q: string, s: string)
  {
    IsPrefix(q, s) || (s != [] && IsSubstring(q, s[1..]))
  }

  /** `q` occurs in `s` starting at position `i`. */
  predicate OccursAt(q: string, s: string, i: int)
  {
    0 <= i <= |s| - |q| && s[i..i + |q|] == q
  }

  /** The scan finds `q` exactly when `q` occurs at some position of `s`. */
  lemma {:induction false} SubstringAt(q: string, s: string)
    ensures IsSubstring(q, s) <==> exists i :: OccursAt(q, s, i)
  {
    if IsPrefix(q, s) {
      assert OccursAt(q, s, 0);
    } else if s != [] {
      SubstringAt(q, s[1..]);
      if IsSubstring(q, s[1..]) {
        var i :| OccursAt(q, s[1..], i);
        assert s[1..][i..i + |q|] == s[i + 1..i + 1 + |q|];
        assert OccursAt(q, s, i + 1);
      }
      if exists i :: OccursAt(q, s, i) {
        var i :| OccursAt(q, s, i);
        assert i != 0;
        assert s[1..][i - 1..i - 1 + |q|] == s[i..i + |q|];
        assert OccursAt(q, s[1..], i - 1);
      }
    }
  }

  /** A search text holding any character outside printable ASCII never
      occurs in the lower-cased text of a list field, whatever its items. */
  lemma NonAsciiNeverInListField(items: seq<string>, q: string, k: int)
    requires 0 <= k < |q| && !(' ' <= q[k] <= '~')
    ensures !IsSubstring(q, Lower(ToText(StrList(items))))
  {
    var s := Lower(ToText(StrList(items)));
    ListTextPrintable(items);
    LowerPrintable(ToText(StrList(items)));
    forall i | 0 <= i <= |s| - |q|
      ensures !OccursAt(q, s, i)
    {
      assert s[i..i + |q|][k] == s[i + k];
    }
    SubstringAt(q, s);
  }

  /** The escape itself is searchable: a search for `xe4` finds the list
      field `[u'\xe4']` that holds `ä`. */
  lemma EscapeFoundExample()
    ensures IsSubstring("xe4", Lower(ToText(StrList(["\U{E4}"]))))
  {
    var r := ReprText("\U{E4}");
    ReprEscapeExample();
    var t := ToText(StrList(["\U{E4}"]));
    assert t == "[" + r + "]";
    assert t[4] == r[3] == 'x' && t[5] == r[4] == 'e' && t[6] == r[5] == '4';
    LowerAt(t);
    var s := Lower(t);
    assert s[4] == 'x' && s[5] == 'e' && s[6] == '4';
    assert s[4..7] == "xe4";
    assert OccursAt("xe4", s, 4);
    SubstringAt("xe4", s);
  }
}

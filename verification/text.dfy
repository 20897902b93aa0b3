/** Character classes used by the edit filters, and the `chunked(n).joinToString(" ")`
    read-back strings the screens hand to the speech engine.

    A Kotlin `String` is a sequence of UTF-16 units, while a `char` here is a whole Unicode
    scalar value, so a character above U+FFFF counts once here and twice in Kotlin, and a
    lone surrogate cannot be written at all. No outcome depends on the difference. `IsDigit`
    is false above U+FFFF, so the account, recipient and bill-number filters, which count
    characters, reject such a character. The amount filters' `\d` accepts digits above
    U+FFFF, but no logic reads the length of an amount. */
module Text {

  /** `c` lies in the run of ten digits that starts at code point `zero`. */
  predicate InRun(c: char, zero: int)
  {
    zero <= c as int < zero + 10
  }

  /** Kotlin's `Char.isDigit()`: general category Nd (decimal digit number). Every Nd
      character of the Basic Multilingual Plane sits in a run of ten starting at one of
      the code points below (Unicode 15). */
  predicate IsDigit(c: char)
  {
    || InRun(c, 0x0030) || InRun(c, 0x0660) || InRun(c, 0x06F0) || InRun(c, 0x07C0)
    || InRun(c, 0x0966) || InRun(c, 0x09E6) || InRun(c, 0x0A66) || InRun(c, 0x0AE6)
    || InRun(c, 0x0B66) || InRun(c, 0x0BE6) || InRun(c, 0x0C66) || InRun(c, 0x0CE6)
    || InRun(c, 0x0D66) || InRun(c, 0x0DE6) || InRun(c, 0x0E50) || InRun(c, 0x0ED0)
    || InRun(c, 0x0F20) || InRun(c, 0x1040) || InRun(c, 0x1090) || InRun(c, 0x17E0)
    || InRun(c, 0x1810) || InRun(c, 0x1946) || InRun(c, 0x19D0) || InRun(c, 0x1A80)
    || InRun(c, 0x1A90) || InRun(c, 0x1B50) || InRun(c, 0x1BB0) || InRun(c, 0x1C40)
    || InRun(c, 0x1C50) || InRun(c, 0xA620) || InRun(c, 0xA8D0) || InRun(c, 0xA900)
    || InRun(c, 0xA9D0) || InRun(c, 0xA9F0) || InRun(c, 0xAA50) || InRun(c, 0xABF0)
    || InRun(c, 0xFF10)
  }

  /** The `\d` of Android's regular expressions: every Nd code point, namely the runs of
      `IsDigit` and those above U+FFFF (Unicode 15). The engine matches code points, so a
      digit above U+FFFF, two UTF-16 units in Kotlin, is one character here as it is one
      match there. */
  predicate IsRegexDigit(c: char)
  {
    || IsDigit(c)
    || InRun(c, 0x104A0) || InRun(c, 0x10D30) || InRun(c, 0x11066) || InRun(c, 0x110F0)
    || InRun(c, 0x11136) || InRun(c, 0x111D0) || InRun(c, 0x112F0) || InRun(c, 0x11450)
    || InRun(c, 0x114D0) || InRun(c, 0x11650) || InRun(c, 0x116C0) || InRun(c, 0x11730)
    || InRun(c, 0x118E0) || InRun(c, 0x11950) || InRun(c, 0x11C50) || InRun(c, 0x11D50)
    || InRun(c, 0x11DA0) || InRun(c, 0x11F50) || InRun(c, 0x16A60) || InRun(c, 0x16AC0)
    || InRun(c, 0x16B50) || (0x1D7CE <= c as int < 0x1D800) || InRun(c, 0x1E140)
    || InRun(c, 0x1E2F0) || InRun(c, 0x1E4F0) || InRun(c, 0x1E950) || InRun(c, 0x1FBF0)
  }

  /** ASCII `0-9`: the digits Kotlin's number parser reads. */
  predicate IsAsciiDigit(c: char)
  {
    '0' <= c <= '9'
  }

  /** `s.all { it.isDigit() }` */
  predicate AllDigits(s: string)
  {
    forall i :: 0 <= i < |s| ==> IsDigit(s[i])
  }

  /** `s` matches `\d*` under Android's regular expressions. */
  predicate AllRegexDigits(s: string)
  {
    forall i :: 0 <= i < |s| ==> IsRegexDigit(s[i])
  }

  predicate AllAsciiDigits(s: string)
  {
    forall i :: 0 <= i < |s| ==> IsAsciiDigit(s[i])
  }

  /** Every ASCII digit is a decimal digit in Unicode's sense. */
  lemma AsciiDigitsAreDigits(s: string)
    requires AllAsciiDigits(s)
    ensures AllDigits(s)
  {
  }

  /** Every ASCII digit matches the regular expressions' `\d`. */
  lemma AsciiDigitsAreRegexDigits(s: string)
    requires AllAsciiDigits(s)
    ensures AllRegexDigits(s)
  {
  }

  /** A digit field holds no space, so its read-back can be undone. */
  lemma DigitsHaveNoSpace(s: string)
    requires AllDigits(s)
    ensures ' ' !in s
  {
  }

  /** The characters of all groups, in order. */
  function Flatten(groups: seq<string>): string
  {
    if |groups| == 0 then [] else groups[0] + Flatten(groups[1..])
  }

  /** Kotlin's `s.chunked(n)`: consecutive groups of `n` characters, the last one possibly
      shorter; the empty string gives no groups. `n > 0` is the library's own demand. */
  function Chunks(s: string, n: nat): (groups: seq<string>)
    requires n > 0
    ensures Flatten(groups) == s
    ensures forall i :: 0 <= i < |groups| ==> 0 < |groups[i]| <= n
    ensures forall i :: 0 <= i < |groups| - 1 ==> |groups[i]| == n
    ensures |groups| == 0 <==> |s| == 0
    decreases |s|
  {
    if |s| == 0 then []
    else if |s| <= n then [s]
    else [s[..n]] + Chunks(s[n..], n)
  }

  /** Kotlin's `joinToString(" ")`: the groups with one space between neighbours. */
  function JoinWithSpaces(groups: seq<string>): string
  {
    if |groups| == 0 then []
    else if |groups| == 1 then groups[0]
    else groups[0] + " " + JoinWithSpaces(groups[1..])
  }

  /** `s.chunked(n).joinToString(" ")`, the read-back form of a digit field. */
  function ReadBack(s: string, n: nat): string
    requires n > 0
  {
    JoinWithSpaces(Chunks(s, n))
  }

  /** The string with every space dropped: what a listener recovers from a read-back. */
  function RemoveSpaces(t: string): (r: string)
    ensures ' ' !in r
    ensures |r| <= |t|
  {
    if |t| == 0 then []
    else (if t[0] == ' ' then [] else [t[0]]) + RemoveSpaces(t[1..])
  }

  lemma {:induction false} RemoveSpacesAppend(a: string, b: string)
    ensures RemoveSpaces(a + b) == RemoveSpaces(a) + RemoveSpaces(b)
    decreases |a|
  {
    if |a| > 0 {
      assert (a + b)[0] == a[0];
      assert (a + b)[1..] == a[1..] + b;
      RemoveSpacesAppend(a[1..], b);
    } else {
      assert a + b == b;
    }
  }

  lemma {:induction false} RemoveSpacesIdentity(a: string)
    requires ' ' !in a
    ensures RemoveSpaces(a) == a
    decreases |a|
  {
    if |a| > 0 {
      assert ' ' !in a[1..];
      RemoveSpacesIdentity(a[1..]);
      assert a == [a[0]] + a[1..];
    }
  }

  /** A character of any group is a character of the flattened string. */
  lemma {:induction false} InFlatten(groups: seq<string>, i: nat, c: char)
    requires i < |groups| && c in groups[i]
    ensures c in Flatten(groups)
    decreases i
  {
    if i > 0 {
      InFlatten(groups[1..], i - 1, c);
    }
  }

  /** Deleting the separators of a join restores the groups' characters, provided the
      groups themselves hold no space. */
  lemma {:induction false} RemoveSpacesOfJoin(groups: seq<string>)
    requires forall i :: 0 <= i < |groups| ==> ' ' !in groups[i]
    ensures RemoveSpaces(JoinWithSpaces(groups)) == Flatten(groups)
    decreases |groups|
  {
    if |groups| == 1 {
      RemoveSpacesIdentity(groups[0]);
      assert Flatten(groups) == groups[0] + Flatten(groups[1..]);
    } else if |groups| > 1 {
      var rest := JoinWithSpaces(groups[1..]);
      RemoveSpacesAppend(groups[0] + " ", rest);
      RemoveSpacesAppend(groups[0], " ");
      RemoveSpacesIdentity(groups[0]);
      assert RemoveSpaces(" ") == [];
      RemoveSpacesOfJoin(groups[1..]);
    }
  }

  /** Removing the spaces of a read-back restores the field, for any field without spaces
      (every digit field qualifies, by DigitsHaveNoSpace). */
  lemma ReadBackRestores(s: string, n: nat)
    requires n > 0 && ' ' !in s
    ensures RemoveSpaces(ReadBack(s, n)) == s
  {
    var groups := Chunks(s, n);
    forall i | 0 <= i < |groups|
      ensures ' ' !in groups[i]
    {
      if ' ' in groups[i] {
        InFlatten(groups, i, ' ');
        assert false;
      }
    }
    RemoveSpacesOfJoin(groups);
  }

  /** A join of `k > 0` groups is as long as their characters plus `k - 1` separators. */
  lemma {:induction false} JoinLength(groups: seq<string>)
    requires |groups| > 0
    ensures |JoinWithSpaces(groups)| == |Flatten(groups)| + |groups| - 1
    decreases |groups|
  {
    if |groups| > 1 {
      JoinLength(groups[1..]);
    } else {
      assert Flatten(groups) == groups[0] + Flatten(groups[1..]);
    }
  }

  /** The read-back of a non-empty field is its characters plus one space per group
      boundary. */
  lemma ReadBackLength(s: string, n: nat)
    requires n > 0 && |s| > 0
    ensures |ReadBack(s, n)| == |s| + |Chunks(s, n)| - 1
  {
    JoinLength(Chunks(s, n));
  }

  /** `chunked(1).joinToString(" ")`: the characters of a non-empty field with a space
      between neighbours, so `2 * |s| - 1` long, the field's characters at even positions
      and spaces at odd ones. */
  lemma {:induction false} ReadBackOfOne(s: string)
    requires |s| > 0
    ensures |ReadBack(s, 1)| == 2 * |s| - 1
    ensures forall i :: 0 <= i < |ReadBack(s, 1)| ==>
      ReadBack(s, 1)[i] == if i % 2 == 0 then s[i / 2] else ' '
    decreases |s|
  {
    if |s| > 1 {
      var rest := ReadBack(s[1..], 1);
      ReadBackOfOne(s[1..]);
      assert Chunks(s, 1) == [s[..1]] + Chunks(s[1..], 1);
      assert ReadBack(s, 1) == s[..1] + " " + rest;
      forall i | 2 <= i < |ReadBack(s, 1)|
        ensures ReadBack(s, 1)[i] == if i % 2 == 0 then s[i / 2] else ' '
      {
        assert ReadBack(s, 1)[i] == rest[i - 2];
        assert (i - 2) % 2 == i % 2 && (i - 2) / 2 == i / 2 - 1;
      }
    }
  }
}

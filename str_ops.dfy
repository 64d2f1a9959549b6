/**
 * The operations of Rust's `str` that the bot applies to message text:
 * `contains`, `starts_with`, `strip_prefix`, `split(' ')`, `len()` (a length
 * in UTF-8 bytes) and the decimal rendering of `{}` in `format!`.
 *
 * Text is a sequence of Unicode scalar values. Because UTF-8 is
 * self-synchronising, matching a pattern on code points gives the same
 * answer as Rust's matching on the encoded bytes.
 */
module StrOps {
  import opened Wrappers

  /** `p` occurs in `s` starting at position `i`. */
  predicate OccursAt(s: string, p: string, i: nat) {
    i + |p| <= |s| && s[i..i + |p|] == p
  }

  /** `s.contains(p)`: scans `s` from the left for an occurrence of `p`. */
  function Contains(s: string, p: string): (r: bool)
    ensures r <==> exists i: nat :: OccursAt(s, p, i)
    decreases |s|
  {
    if p <= s then
      assert OccursAt(s, p, 0);
      true
    else if |s| == 0 then
      assert forall i: nat :: !OccursAt(s, p, i);
      false
    else
      var r := Contains(s[1..], p);
      assert forall i: nat :: OccursAt(s[1..], p, i) <==> OccursAt(s, p, i + 1) by {
        forall i: nat ensures OccursAt(s[1..], p, i) <==> OccursAt(s, p, i + 1) {
          if i + |p| <= |s| - 1 {
            assert s[1..][i..i + |p|] == s[i + 1..i + 1 + |p|];
          }
        }
      }
      assert r ==> exists i: nat :: OccursAt(s, p, i) by {
        if r {
          var i: nat :| OccursAt(s[1..], p, i);
          assert OccursAt(s, p, i + 1);
        }
      }
      assert (exists i: nat :: OccursAt(s, p, i)) ==> r by {
        if exists i: nat :: OccursAt(s, p, i) {
          var i: nat :| OccursAt(s, p, i);
          assert i != 0;
          assert OccursAt(s[1..], p, i - 1);
        }
      }
      r
  }

  /** `s.starts_with(p)`: the pattern occurs at the very start of the text. */
  function StartsWith(s: string, p: string): (r: bool)
    ensures r <==> OccursAt(s, p, 0)
  {
    p <= s
  }

  /** `s.strip_prefix(p)`: the rest of `s` when it starts with `p`. */
  function StripPrefix(s: string, p: string): (r: Option<string>)
    ensures r.Some? <==> StartsWith(s, p)
    ensures r.Some? ==> p + r.value == s
  {
    if p <= s then Some(s[|p|..]) else None
  }

  lemma StripPrefixUnique(s: string, p: string, rest: string)
    ensures StripPrefix(s, p) == Some(rest) <==> s == p + rest
  {
    if s == p + rest {
      assert s[|p|..] == rest;
    }
  }

  /**
   * `s.split(sep)` collected: the pieces of `s` between occurrences of
   * `sep`. Consecutive separators yield empty pieces, and there is always
   * at least one piece (the empty text splits into one empty piece).
   */
  function Split(s: string, sep: char): (r: seq<string>)
    ensures |r| >= 1
    decreases |s|
  {
    if |s| == 0 then [""]
    else
      var init := Split(s[..|s| - 1], sep);
      var c := s[|s| - 1];
      if c == sep then init + [""]
      else init[..|init| - 1] + [init[|init| - 1] + [c]]
  }

  /** The pieces joined with `sep` between consecutive pieces. */
  function Join(parts: seq<string>, sep: string): string
    decreases |parts|
  {
    if |parts| == 0 then ""
    else if |parts| == 1 then parts[0]
    else Join(parts[..|parts| - 1], sep) + sep + parts[|parts| - 1]
  }

  /** Appending a piece to one or more pieces appends the separator and that piece. */
  lemma JoinSnoc(parts: seq<string>, x: string, sep: string)
    requires |parts| >= 1
    ensures Join(parts + [x], sep) == Join(parts, sep) + sep + x
  {
    assert (parts + [x])[..|parts|] == parts;
  }

  /** No piece of a split holds the separator. */
  lemma {:induction false} SplitPiecesFree(s: string, sep: char)
    ensures forall i :: 0 <= i < |Split(s, sep)| ==> sep !in Split(s, sep)[i]
    decreases |s|
  {
    if |s| > 0 {
      SplitPiecesFree(s[..|s| - 1], sep);
    }
  }

  /** Split unfolded at a last character that is the separator: it starts an empty piece. */
  lemma SplitEndsPiece(t: string, sep: char)
    ensures Split(t + [sep], sep) == Split(t, sep) + [""]
  {
    assert (t + [sep])[..|t|] == t;
  }

  /** Split unfolded at a last character that is not the separator: it extends the last piece. */
  lemma SplitExtendsLast(t: string, c: char, sep: char)
    requires c != sep
    ensures var init := Split(t, sep);
      Split(t + [c], sep) == init[..|init| - 1] + [init[|init| - 1] + [c]]
  {
    assert (t + [c])[..|t|] == t;
  }

  /** One more character at the end of the text: the join of the pieces grows by that character. */
  lemma JoinSplitStep(s: string, t: string, c: char, sep: char)
    requires s == t + [c]
    requires Join(Split(t, sep), [sep]) == t
    ensures Join(Split(s, sep), [sep]) == s
  {
    var init := Split(t, sep);
    if c == sep {
      SplitEndsPiece(t, sep);
      JoinSnoc(init, "", [sep]);
    } else {
      SplitExtendsLast(t, c, sep);
      var k := |init| - 1;
      if k > 0 {
        assert init == init[..k] + [init[k]];
        JoinSnoc(init[..k], init[k], [sep]);
        JoinSnoc(init[..k], init[k] + [c], [sep]);
      }
    }
  }

  /** Joining the pieces of a split with the separator gives the text back. */
  lemma {:induction false} JoinSplit(s: string, sep: char)
    ensures Join(Split(s, sep), [sep]) == s
    decreases |s|
  {
    if |s| > 0 {
      var t := s[..|s| - 1];
      JoinSplit(t, sep);
      JoinSplitStep(s, t, s[|s| - 1], sep);
    }
  }

  /** Text free of the separator splits into itself alone. */
  lemma {:induction false} SplitNoSeparator(x: string, sep: char)
    requires sep !in x
    ensures Split(x, sep) == [x]
    decreases |x|
  {
    if |x| > 0 {
      SplitNoSeparator(x[..|x| - 1], sep);
      assert x[..|x| - 1] + [x[|x| - 1]] == x;
    }
  }

  /** A separator followed by separator-free text adds exactly one piece. */
  lemma {:induction false} SplitAppendPiece(t: string, sep: char, x: string)
    requires sep !in x
    ensures Split(t + [sep] + x, sep) == Split(t, sep) + [x]
    decreases |x|
  {
    var s := t + [sep] + x;
    if |x| == 0 {
      assert s[..|s| - 1] == t;
    } else {
      var x' := x[..|x| - 1];
      SplitAppendPiece(t, sep, x');
      assert s[..|s| - 1] == t + [sep] + x';
      assert x' + [x[|x| - 1]] == x;
    }
  }

  /** Splitting a join of separator-free pieces gives the pieces back. */
  lemma {:induction false} SplitJoin(parts: seq<string>, sep: char)
    requires |parts| >= 1
    requires forall i :: 0 <= i < |parts| ==> sep !in parts[i]
    ensures Split(Join(parts, [sep]), sep) == parts
    decreases |parts|
  {
    if |parts| == 1 {
      SplitNoSeparator(parts[0], sep);
    } else {
      var init := parts[..|parts| - 1];
      SplitJoin(init, sep);
      SplitAppendPiece(Join(init, [sep]), sep, parts[|parts| - 1]);
      assert init + [parts[|parts| - 1]] == parts;
    }
  }

  /** There is one more piece than there are separators in the text. */
  lemma {:induction false} SplitCount(s: string, sep: char)
    ensures |Split(s, sep)| == multiset(s)[sep] + 1
    decreases |s|
  {
    if |s| > 0 {
      SplitCount(s[..|s| - 1], sep);
      assert s == s[..|s| - 1] + [s[|s| - 1]];
    }
  }

  /** A join starts with the first piece and ends with the last one. */
  lemma {:induction false} JoinEnds(parts: seq<string>, sep: string)
    requires |parts| >= 1
    ensures parts[0] <= Join(parts, sep)
    ensures |parts[|parts| - 1]| <= |Join(parts, sep)|
    ensures Join(parts, sep)[|Join(parts, sep)| - |parts[|parts| - 1]|..] == parts[|parts| - 1]
    decreases |parts|
  {
    if |parts| > 1 {
      var init := parts[..|parts| - 1];
      JoinEnds(init, sep);
      assert init[0] == parts[0];
    }
  }

  /** A join of two pieces or more is the first piece, the separator, and the join of the rest. */
  lemma {:induction false} JoinFront(parts: seq<string>, sep: string)
    requires |parts| >= 2
    ensures Join(parts, sep) == parts[0] + sep + Join(parts[1..], sep)
    decreases |parts|
  {
    if |parts| > 2 {
      var init := parts[..|parts| - 1];
      JoinFront(init, sep);
      assert init[1..] == parts[1..][..|parts| - 2];
    }
  }

  /** The number of bytes that UTF-8 uses to encode `c`. */
  function Utf8Width(c: char): (w: nat)
    ensures 1 <= w <= 4
    ensures w == 1 <==> (c as int) < 0x80
  {
    if (c as int) < 0x80 then 1
    else if (c as int) < 0x800 then 2
    else if (c as int) < 0x1_0000 then 3
    else 4
  }

  /** `s.len()`: the length of `s` in UTF-8 bytes; every character takes one to four. */
  function ByteLen(s: string): (n: nat)
    ensures |s| <= n <= 4 * |s|
    decreases |s|
  {
    if |s| == 0 then 0 else ByteLen(s[..|s| - 1]) + Utf8Width(s[|s| - 1])
  }

  /**
   * A text is longer than one byte exactly when it has two characters or
   * more, or a single character outside ASCII.
   */
  lemma ByteLenAboveOne(s: string)
    ensures ByteLen(s) > 1 <==> |s| >= 2 || (|s| == 1 && (s[0] as int) >= 0x80)
  {
    if |s| == 1 {
      assert s[..0] == "";
    }
  }

  /** The decimal digit character for `d`. */
  function DigitChar(d: nat): (c: char)
    requires d < 10
    ensures '0' <= c <= '9'
  {
    ('0' as int + d) as char
  }

  predicate IsDigits(s: string) {
    forall i :: 0 <= i < |s| ==> '0' <= s[i] <= '9'
  }

  /** `{}` of an unsigned integer in `format!`: its decimal digits. */
  function NatToString(n: nat): (s: string)
    ensures |s| >= 1 && IsDigits(s)
    ensures s[0] == '0' ==> n == 0
    decreases n
  {
    if n < 10 then [DigitChar(n)] else NatToString(n / 10) + [DigitChar(n % 10)]
  }

  /** The number a string of decimal digits denotes. */
  function DigitsValue(s: string): nat
    requires IsDigits(s)
    decreases |s|
  {
    if |s| == 0 then 0
    else DigitsValue(s[..|s| - 1]) * 10 + (s[|s| - 1] as int - '0' as int)
  }

  /** Reading the rendered digits back gives the number. */
  lemma {:induction false} NatToStringValue(n: nat)
    ensures DigitsValue(NatToString(n)) == n
    decreases n
  {
    if n >= 10 {
      NatToStringValue(n / 10);
      var s := NatToString(n);
      assert s[..|s| - 1] == NatToString(n / 10);
    }
  }
}

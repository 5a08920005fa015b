/**
 * The on-disk name the upload server gives a stored file: the client's
 * original name with every character outside [A-Za-z0-9.] replaced by `_`,
 * prefixed by `<clock milliseconds>-<random draw>-`.
 *
 * JavaScript strings are sequences of UTF-16 code units and the server's
 * regular expression has no `u` flag, so it replaces code unit by code unit.
 * A Dafny `char` is a whole Unicode scalar value; one at or above U+10000 is
 * two code units in JavaScript and so becomes two `_` here.
 */
module StoredNames {
  import opened Wrappers
  import Decimal

  // ---------------------------------------------------------------------------
  // Sanitising the original name
  // ---------------------------------------------------------------------------

  /** The characters the sanitiser keeps: ASCII letters, digits and the dot. */
  predicate IsKept(c: char) {
    ('a' <= c <= 'z') || ('A' <= c <= 'Z') || ('0' <= c <= '9') || c == '.'
  }

  /** A name whose every character is kept or is the replacement `_`. */
  predicate IsSanitized(s: string) {
    forall i :: 0 <= i < |s| ==> IsKept(s[i]) || s[i] == '_'
  }

  /** A character JavaScript stores as one UTF-16 code unit. */
  predicate InBasicPlane(c: char) {
    c as int < 0x1_0000
  }

  /** The number of UTF-16 code units JavaScript uses for one character. */
  function CodeUnits(c: char): (n: nat)
    ensures 1 <= n <= 2
  {
    if InBasicPlane(c) then 1 else 2
  }

  /** The number of UTF-16 code units JavaScript uses for `s`. */
  function Utf16Length(s: string): (n: nat)
    ensures n >= |s|
  {
    if s == [] then 0 else CodeUnits(s[0]) + Utf16Length(s[1..])
  }

  /** Counting code units character by character from the end. */
  lemma {:induction false} Utf16LengthSnoc(s: string, c: char)
    ensures Utf16Length(s + [c]) == Utf16Length(s) + CodeUnits(c)
  {
    if s == [] {
      assert s + [c] == [c];
    } else {
      assert (s + [c])[1..] == s[1..] + [c];
      Utf16LengthSnoc(s[1..], c);
    }
  }

  /**
   * What the sanitiser writes in place of one character: the character
   * itself when it is kept, otherwise one `_` per UTF-16 code unit.
   */
  function Replacement(c: char): (r: string)
    ensures |r| == CodeUnits(c)
    ensures IsKept(c) ==> r == [c]
    ensures !IsKept(c) ==> forall k :: 0 <= k < |r| ==> r[k] == '_'
  {
    if IsKept(c) then [c] else if InBasicPlane(c) then "_" else "__"
  }

  /**
   * `originalname.replace(/[^a-zA-Z0-9.]/g, '_')`: as long as the input in
   * UTF-16 code units, and made only of kept characters and `_`.
   */
  function Sanitize(s: string): (r: string)
    ensures |r| == Utf16Length(s)
    ensures IsSanitized(r)
  {
    if s == [] then [] else Replacement(s[0]) + Sanitize(s[1..])
  }

  /**
   * For a name without characters beyond U+FFFF, sanitising keeps the length
   * and each position: a kept character stays where it was and every other
   * character becomes `_`.
   */
  lemma {:induction false} SanitizeAt(s: string)
    requires forall i :: 0 <= i < |s| ==> InBasicPlane(s[i])
    ensures |Sanitize(s)| == |s|
    ensures forall i :: 0 <= i < |s| ==> Sanitize(s)[i] == if IsKept(s[i]) then s[i] else '_'
  {
    if s != [] {
      SanitizeAt(s[1..]);
      var r := Sanitize(s);
      assert r == Replacement(s[0]) + Sanitize(s[1..]);
      forall i | 0 <= i < |s|
        ensures r[i] == if IsKept(s[i]) then s[i] else '_'
      {
        if i > 0 {
          assert r[i] == Sanitize(s[1..])[i - 1];
        }
      }
    }
  }

  /**
   * Character `i` of the name, which starts at UTF-16 position
   * `Utf16Length(s[..i])`, is replaced there by its replacement, whatever
   * characters the name holds.
   */
  lemma {:induction false} SanitizeCodeUnits(s: string, i: nat)
    requires i < |s|
    ensures Utf16Length(s[..i]) + |Replacement(s[i])| <= |Sanitize(s)|
    ensures forall k :: 0 <= k < |Replacement(s[i])| ==>
      Sanitize(s)[Utf16Length(s[..i]) + k] == Replacement(s[i])[k]
  {
    var r := Sanitize(s);
    assert r == Replacement(s[0]) + Sanitize(s[1..]);
    if i == 0 {
      assert s[..0] == [];
    } else {
      SanitizeCodeUnits(s[1..], i - 1);
      assert s[..i][0] == s[0] && s[..i][1..] == s[1..][..i - 1];
      assert s[1..][i - 1] == s[i];
      var p := Utf16Length(s[1..][..i - 1]);
      assert Utf16Length(s[..i]) == |Replacement(s[0])| + p;
      forall k | 0 <= k < |Replacement(s[i])|
        ensures r[Utf16Length(s[..i]) + k] == Replacement(s[i])[k]
      {
        assert r[|Replacement(s[0])| + p + k] == Sanitize(s[1..])[p + k];
      }
    }
  }

  /**
   * For any name: a kept character stays, at the UTF-16 position where it
   * stood, and every code unit of any other character becomes `_`.
   */
  lemma SanitizeKeepsOrBlanks(s: string, i: nat)
    requires i < |s|
    ensures Utf16Length(s[..i]) < Utf16Length(s[..i + 1]) <= |Sanitize(s)|
    ensures IsKept(s[i]) ==> Sanitize(s)[Utf16Length(s[..i])] == s[i]
    ensures !IsKept(s[i]) ==>
      forall j :: Utf16Length(s[..i]) <= j < Utf16Length(s[..i + 1]) ==> Sanitize(s)[j] == '_'
  {
    assert s[..i + 1] == s[..i] + [s[i]];
    Utf16LengthSnoc(s[..i], s[i]);
    SanitizeCodeUnits(s, i);
    var p := Utf16Length(s[..i]);
    if !IsKept(s[i]) {
      forall j | p <= j < Utf16Length(s[..i + 1]) ensures Sanitize(s)[j] == '_' {
        assert Sanitize(s)[p + (j - p)] == Replacement(s[i])[j - p];
      }
    }
  }

  /** A name that is already sanitised is left as it is. */
  lemma {:induction false} SanitizeKeepsSanitized(s: string)
    requires IsSanitized(s)
    ensures Sanitize(s) == s
  {
    if s != [] {
      assert IsSanitized(s[1..]) by {
        forall i | 0 <= i < |s| - 1 ensures IsKept(s[1..][i]) || s[1..][i] == '_' {
          assert s[1..][i] == s[i + 1];
        }
      }
      SanitizeKeepsSanitized(s[1..]);
      assert Replacement(s[0]) == [s[0]];
    }
  }

  /** Sanitising twice is sanitising once. */
  lemma SanitizeIdempotent(s: string)
    ensures Sanitize(Sanitize(s)) == Sanitize(s)
  {
    SanitizeKeepsSanitized(Sanitize(s));
  }

  /** A sanitised name holds neither path separator. */
  lemma SanitizedHasNoSeparator(s: string)
    ensures '/' !in Sanitize(s) && '\\' !in Sanitize(s)
  {
  }

  // ---------------------------------------------------------------------------
  // The stored name
  // ---------------------------------------------------------------------------

  /** The largest value `Date.now()` can return: 8.64e15 ms after the epoch. */
  const MaxClock: nat := 8_640_000_000_000_000

  /** The largest value `Math.round(Math.random() * 1E9)` can return. */
  const MaxDraw: nat := 1_000_000_000

  /** A reading of the clock, in milliseconds since the epoch. */
  type ClockMillis = n: nat | n <= MaxClock

  /** A draw of the random-number source, already rounded to an integer. */
  type RandomDraw = n: nat | n <= MaxDraw

  /** A character that can occur in a stored name. */
  predicate IsStoredNameChar(c: char) {
    IsKept(c) || c == '_' || c == '-'
  }

  /**
   * The `filename` rule of the disk storage:
   * `<now>-<draw>-<sanitised original name>`.  It starts with a digit, ends
   * with the sanitised original name, and holds only kept characters, `_`
   * and `-`.
   */
  function StoredName(now: ClockMillis, draw: RandomDraw, originalName: string): (name: string)
    ensures |name| > |Sanitize(originalName)|
    ensures Decimal.IsDigit(name[0])
    ensures name[|name| - |Sanitize(originalName)|..] == Sanitize(originalName)
    ensures forall i :: 0 <= i < |name| ==> IsStoredNameChar(name[i])
  {
    Decimal.FromNat(now) + "-" + Decimal.FromNat(draw) + "-" + Sanitize(originalName)
  }

  /** A stored name is one path component: no separator, and never `.` or `..`. */
  lemma StoredNameIsOneComponent(now: ClockMillis, draw: RandomDraw, originalName: string)
    ensures '/' !in StoredName(now, draw, originalName)
    ensures '\\' !in StoredName(now, draw, originalName)
    ensures StoredName(now, draw, originalName) != "."
    ensures StoredName(now, draw, originalName) != ".."
  {
  }

  // ---------------------------------------------------------------------------
  // Reading a stored name back
  // ---------------------------------------------------------------------------

  /** The three parts a stored name is built from. */
  datatype StoredNameParts = StoredNameParts(now: nat, draw: nat, sanitizedName: string)

  /** The position of the first `c` in `s`, if there is one. */
  function IndexOf(s: string, c: char): (r: Option<nat>)
    ensures r.None? <==> c !in s
    ensures r.Some? ==> r.value < |s| && s[r.value] == c && c !in s[..r.value]
  {
    if s == [] then None
    else if s[0] == c then Some(0)
    else
      var k := IndexOf(s[1..], c);
      if k.None? then None
      else
        assert s[..k.value + 1] == [s[0]] + s[1..][..k.value];
        Some(k.value + 1)
  }

  /**
   * Splits a name at its first two `-` into the clock reading, the random
   * draw and the rest; `None` when the name does not have that shape.
   */
  function ParseStoredName(name: string): (r: Option<StoredNameParts>)
    ensures r.Some? ==> r.value.now <= MaxClock && r.value.draw <= MaxDraw
    ensures r.Some? ==> |r.value.sanitizedName| < |name|
  {
    match IndexOf(name, '-')
    case None => None
    case Some(i) =>
      var nowText, rest := name[..i], name[i + 1..];
      match IndexOf(rest, '-')
      case None => None
      case Some(j) =>
        var drawText, tail := rest[..j], rest[j + 1..];
        if Decimal.IsDigits(nowText) && Decimal.IsDigits(drawText) then
          var now, draw := Decimal.ToNat(nowText), Decimal.ToNat(drawText);
          if now <= MaxClock && draw <= MaxDraw then Some(StoredNameParts(now, draw, tail)) else None
        else None
  }

  lemma IndexOfAfter(a: string, c: char, b: string)
    requires c !in a
    ensures IndexOf(a + [c] + b, c) == Some(|a|)
  {
    var s := a + [c] + b;
    var r := IndexOf(s, c);
    assert s[|a|] == c;
  }

  /** A name of the stored shape splits back into its three parts. */
  lemma ParseJoined(nowText: string, drawText: string, tail: string)
    requires Decimal.IsDigits(nowText) && Decimal.IsDigits(drawText)
    requires Decimal.ToNat(nowText) <= MaxClock && Decimal.ToNat(drawText) <= MaxDraw
    ensures ParseStoredName(nowText + "-" + drawText + "-" + tail)
         == Some(StoredNameParts(Decimal.ToNat(nowText), Decimal.ToNat(drawText), tail))
  {
    var name := nowText + "-" + drawText + "-" + tail;
    var rest := drawText + "-" + tail;
    assert '-' !in nowText && '-' !in drawText;
    assert name == nowText + ['-'] + rest;
    IndexOfAfter(nowText, '-', rest);
    assert name[..|nowText|] == nowText;
    assert name[|nowText| + 1..] == rest;
    assert rest == drawText + ['-'] + tail;
    IndexOfAfter(drawText, '-', tail);
    assert rest[..|drawText|] == drawText;
    assert rest[|drawText| + 1..] == tail;
  }

  /**
   * The stored name determines the clock reading, the random draw and the
   * sanitised original name it was built from.
   */
  lemma StoredNameRoundTrip(now: ClockMillis, draw: RandomDraw, originalName: string)
    ensures ParseStoredName(StoredName(now, draw, originalName))
         == Some(StoredNameParts(now, draw, Sanitize(originalName)))
  {
    Decimal.ToNatFromNat(now);
    Decimal.ToNatFromNat(draw);
    ParseJoined(Decimal.FromNat(now), Decimal.FromNat(draw), Sanitize(originalName));
  }
}

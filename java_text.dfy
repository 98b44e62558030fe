/** The java.lang.String and java.lang.Integer operations that the parsers and the
    controllers rely on. Whitespace is Java's full set; case mapping and digits are
    restricted to ASCII. */
module JavaText {
  import opened Common

  const IntMin: int := -0x8000_0000
  const IntMax: int := 0x7FFF_FFFF

  // ---------------------------------------------------------------- trim / blank

  /** String.trim removes every leading and trailing char whose code is <= ' '. */
  predicate IsTrimmed(c: char) { c <= ' ' }

  /** The first index from st on whose char is not trimmable (|s| if none): String.trim's
      first loop. */
  function TrimFrom(s: string, st: nat): (k: nat)
    requires st <= |s|
    ensures st <= k <= |s|
    ensures forall i :: st <= i < k ==> IsTrimmed(s[i])
    ensures k < |s| ==> !IsTrimmed(s[k])
    decreases |s| - st
  {
    if st < |s| && IsTrimmed(s[st]) then TrimFrom(s, st + 1) else st
  }

  /** The end left by dropping trimmable chars from len down to st: String.trim's second
      loop. */
  function TrimTo(s: string, st: nat, len: nat): (k: nat)
    requires st <= len <= |s|
    ensures st <= k <= len
    ensures forall i :: k <= i < len ==> IsTrimmed(s[i])
    ensures k > st ==> !IsTrimmed(s[k - 1])
    decreases len
  {
    if st < len && IsTrimmed(s[len - 1]) then TrimTo(s, st, len - 1) else len
  }

  /** String.trim: the slice between the two loops' stops. */
  function Trim(s: string): (r: string)
  {
    var st := TrimFrom(s, 0);
    s[st..TrimTo(s, st, |s|)]
  }

  /** The stop of the first loop is the one index that has only trimmable chars before it
      and a kept char (or the end) at it. */
  lemma TrimFromExact(s: string, st: nat, k: nat)
    requires st <= k <= |s|
    requires forall i :: st <= i < k ==> IsTrimmed(s[i])
    requires k < |s| ==> !IsTrimmed(s[k])
    ensures TrimFrom(s, st) == k
  {
  }

  lemma TrimToExact(s: string, st: nat, len: nat, k: nat)
    requires st <= k <= len <= |s|
    requires forall i :: k <= i < len ==> IsTrimmed(s[i])
    requires k > st ==> !IsTrimmed(s[k - 1])
    ensures TrimTo(s, st, len) == k
  {
  }

  /** The trimmed string is a slice of the input with no trimmable char at either end,
      and trimming twice changes nothing. */
  lemma TrimShape(s: string)
    ensures exists i, j :: 0 <= i <= j <= |s| && Trim(s) == s[i..j]
    ensures Trim(s) == [] || (!IsTrimmed(Trim(s)[0]) && !IsTrimmed(Trim(s)[|Trim(s)| - 1]))
    ensures Trim(Trim(s)) == Trim(s)
  {
    var st := TrimFrom(s, 0);
    var len := TrimTo(s, st, |s|);
    var t := s[st..len];
    if t != [] {
      assert t[0] == s[st] && t[|t| - 1] == s[len - 1];
      TrimUnchanged(t);
    } else {
      TrimFromExact(t, 0, 0);
      TrimToExact(t, 0, 0, 0);
    }
  }

  /** A string that neither starts nor ends with a trimmable char is left as it is. */
  lemma TrimUnchanged(s: string)
    requires s != [] && !IsTrimmed(s[0]) && !IsTrimmed(s[|s| - 1])
    ensures Trim(s) == s
  {
    TrimFromExact(s, 0, 0);
    TrimToExact(s, 0, |s|, |s|);
    assert s[0..|s|] == s;
  }

  /** Padding of trimmable chars around a string that starts and ends with a kept char
      is exactly what trimming removes. */
  lemma TrimPadded(pad: string, name: string, pad2: string)
    requires forall i :: 0 <= i < |pad| ==> IsTrimmed(pad[i])
    requires forall i :: 0 <= i < |pad2| ==> IsTrimmed(pad2[i])
    requires name != [] && !IsTrimmed(name[0]) && !IsTrimmed(name[|name| - 1])
    ensures Trim(pad + name + pad2) == name
  {
    var s := pad + name + pad2;
    var st, len := |pad|, |pad| + |name|;
    forall i | 0 <= i < st ensures IsTrimmed(s[i]) {
      assert s[i] == pad[i];
    }
    assert s[st] == name[0];
    TrimFromExact(s, 0, st);
    forall i | len <= i < |s| ensures IsTrimmed(s[i]) {
      assert s[i] == pad2[i - len];
    }
    assert s[len - 1] == name[|name| - 1];
    TrimToExact(s, st, |s|, len);
    assert s[st..len] == name;
  }

  /** Java's Character.isWhitespace: \t, \n, VT, \f, \r, the four separator controls
      0x1C..0x1F, and the Unicode space, line and paragraph separators other than the
      no-break spaces U+00A0, U+2007 and U+202F. */
  predicate IsWhitespace(c: char)
  {
    c == ' ' || ('\t' <= c <= '\r') || ('\U{1C}' <= c <= '\U{1F}')
    || c == '\U{1680}' || ('\U{2000}' <= c <= '\U{2006}') || ('\U{2008}' <= c <= '\U{200A}')
    || c == '\U{2028}' || c == '\U{2029}' || c == '\U{205F}' || c == '\U{3000}'
  }

  /** String.isBlank: empty or only whitespace. */
  predicate IsBlank(s: string)
  {
    forall i :: 0 <= i < |s| ==> IsWhitespace(s[i])
  }

  /** A blank string trims to a blank string, and to "" exactly when all of its chars are
      ones trim removes; a blank string holding a Unicode space keeps the part from the
      first to the last of them. */
  lemma BlankTrimsToEmpty(s: string)
    requires IsBlank(s)
    ensures IsBlank(Trim(s))
    ensures Trim(s) == [] <==> forall i :: 0 <= i < |s| ==> IsTrimmed(s[i])
  {
    var st := TrimFrom(s, 0);
    var en := TrimTo(s, st, |s|);
    forall i | 0 <= i < |Trim(s)| ensures IsWhitespace(Trim(s)[i]) {
      assert Trim(s)[i] == s[st + i];
    }
    if Trim(s) == [] {
      assert st == en;
      forall i | 0 <= i < |s| ensures IsTrimmed(s[i]) {
        assert i < st;
      }
    }
  }

  /** The ideographic space U+3000 is whitespace for isBlank, but trim keeps it. */
  lemma WideSpaceKeptByTrim()
    ensures IsBlank("\U{3000}") && Trim("\U{3000}") == "\U{3000}"
  {
    assert !IsTrimmed('\U{3000}');
  }

  // ---------------------------------------------------------------- case (ASCII)

  function UpperChar(c: char): char
  {
    if 'a' <= c <= 'z' then (c as int - 32) as char else c
  }

  function LowerChar(c: char): char
  {
    if 'A' <= c <= 'Z' then (c as int + 32) as char else c
  }

  /** String.toUpperCase on ASCII text. */
  function ToUpper(s: string): (r: string)
    ensures |r| == |s|
    ensures forall i :: 0 <= i < |s| ==> r[i] == UpperChar(s[i])
  {
    seq(|s|, i requires 0 <= i < |s| => UpperChar(s[i]))
  }

  /** String.toLowerCase on ASCII text. */
  function ToLower(s: string): (r: string)
    ensures |r| == |s|
    ensures forall i :: 0 <= i < |s| ==> r[i] == LowerChar(s[i])
  {
    seq(|s|, i requires 0 <= i < |s| => LowerChar(s[i]))
  }

  /** String.equalsIgnoreCase: same length and char-wise equal up to case. */
  predicate EqualsIgnoreCase(a: string, b: string)
  {
    |a| == |b| && forall i :: 0 <= i < |a| ==>
      a[i] == b[i] || UpperChar(a[i]) == UpperChar(b[i]) || LowerChar(a[i]) == LowerChar(b[i])
  }

  /** Upper-casing is idempotent and case-insensitively a no-op. */
  lemma UpperIdempotent(s: string)
    ensures ToUpper(ToUpper(s)) == ToUpper(s)
    ensures EqualsIgnoreCase(ToUpper(s), s)
  {
  }

  /** Case-insensitive equality is an equivalence relation. */
  lemma EqualsIgnoreCaseEquivalence(a: string, b: string, c: string)
    ensures EqualsIgnoreCase(a, a)
    ensures EqualsIgnoreCase(a, b) ==> EqualsIgnoreCase(b, a)
    ensures EqualsIgnoreCase(a, b) && EqualsIgnoreCase(b, c) ==> EqualsIgnoreCase(a, c)
  {
  }

  // ---------------------------------------------------------------- split

  /** The fields between separators, keeping every empty field; never empty. */
  function Fields(s: string, sep: char): (r: seq<string>)
    ensures |r| >= 1
    ensures forall k :: 0 <= k < |r| ==> sep !in r[k]
  {
    if s == [] then [""]
    else
      var rest := Fields(s[1..], sep);
      if s[0] == sep then [""] + rest else [[s[0]] + rest[0]] + rest[1..]
  }

  /** Inverse of Fields: the pieces glued back with the separator. */
  function Join(parts: seq<string>, sep: char): string
  {
    if parts == [] then "" else if |parts| == 1 then parts[0]
    else parts[0] + [sep] + Join(parts[1..], sep)
  }

  lemma {:induction false} JoinFields(s: string, sep: char)
    ensures Join(Fields(s, sep), sep) == s
  {
    if s != [] {
      var rest := Fields(s[1..], sep);
      JoinFields(s[1..], sep);
      if s[0] == sep {
        assert Fields(s, sep) == [""] + rest;
        assert Join(Fields(s, sep), sep) == "" + [sep] + Join(rest, sep);
      } else {
        var f := [[s[0]] + rest[0]] + rest[1..];
        assert Fields(s, sep) == f;
        if |rest| == 1 {
          assert Join(f, sep) == [s[0]] + rest[0];
        } else {
          assert f[1..] == rest[1..];
          assert Join(rest, sep) == rest[0] + [sep] + Join(rest[1..], sep);
          assert Join(f, sep) == [s[0]] + rest[0] + [sep] + Join(rest[1..], sep);
        }
      }
    }
  }

  /** Drops trailing empty strings, as String.split with limit 0 does. */
  function DropTrailingEmpty(parts: seq<string>): (r: seq<string>)
    ensures |r| <= |parts| && r == parts[..|r|]
    ensures r == [] || r[|r| - 1] != ""
    ensures forall k :: |r| <= k < |parts| ==> parts[k] == ""
  {
    if parts == [] || parts[|parts| - 1] != "" then parts
    else DropTrailingEmpty(parts[..|parts| - 1])
  }

  /** String.split around a one-char literal regex: "" gives [""], a non-empty input
      gives its fields without the trailing empty ones. */
  function Split(s: string, sep: char): (r: seq<string>)
    ensures forall k :: 0 <= k < |r| ==> sep !in r[k]
  {
    if s == [] then [""] else DropTrailingEmpty(Fields(s, sep))
  }

  /** A string with no separator splits into itself. */
  lemma {:induction false} SplitNoSeparator(s: string, sep: char)
    requires sep !in s
    ensures Fields(s, sep) == [s]
    ensures Split(s, sep) == [s]
  {
    if s != [] {
      SplitNoSeparator(s[1..], sep);
      assert s[0] != sep;
      assert Fields(s, sep) == [[s[0]] + s[1..]];
      assert [s[0]] + s[1..] == s;
    }
  }

  /** The fields of a + sep + b are a followed by the fields of b. */
  lemma {:induction false} FieldsConcat(a: string, b: string, sep: char)
    requires sep !in a
    ensures Fields(a + [sep] + b, sep) == [a] + Fields(b, sep)
  {
    if a == [] {
      assert a + [sep] + b == [sep] + b;
      assert ([sep] + b)[1..] == b;
    } else {
      FieldsConcat(a[1..], b, sep);
      assert (a + [sep] + b)[1..] == a[1..] + [sep] + b;
      assert [a[0]] + a[1..] == a;
    }
  }

  /** Two separator-free pieces joined by the separator split back into the pieces. */
  lemma SplitPair(a: string, b: string, sep: char)
    requires sep !in a && sep !in b && b != []
    ensures Split(a + [sep] + b, sep) == [a, b]
  {
    FieldsConcat(a, b, sep);
    SplitNoSeparator(b, sep);
  }

  /** Splitting keeps the fields, in order, up to the last non-empty one. */
  lemma SplitIsPrefixOfFields(s: string, sep: char)
    requires s != []
    ensures Split(s, sep) == Fields(s, sep)[..|Split(s, sep)|]
  {
  }

  // ---------------------------------------------------------------- integers

  predicate IsDigit(c: char) { '0' <= c <= '9' }

  predicate AllDigits(s: string) { forall i :: 0 <= i < |s| ==> IsDigit(s[i]) }

  function DigitValue(c: char): nat requires IsDigit(c) { c as int - '0' as int }

  /** The value of a decimal digit string, most significant digit first. */
  function DigitsValue(s: string): nat
    requires AllDigits(s)
  {
    if s == [] then 0 else 10 * DigitsValue(s[..|s| - 1]) + DigitValue(s[|s| - 1])
  }

  /** Integer.parseInt: an optional sign then at least one digit, and a value that fits
      in 32 bits; anything else is a NumberFormatException (None). */
  function ParseInt(s: string): (r: Option<int>)
    ensures r.Some? ==> IntMin <= r.value <= IntMax
    ensures r.Some? ==> s != [] && (AllDigits(s) || ((s[0] == '-' || s[0] == '+') && AllDigits(s[1..])))
  {
    if s == [] then None
    else
      var signed := s[0] == '-' || s[0] == '+';
      var digits := if signed then s[1..] else s;
      if digits == [] || !AllDigits(digits) then None
      else
        var v: int := if s[0] == '-' then 0 - (DigitsValue(digits) as int) else DigitsValue(digits) as int;
        if IntMin <= v <= IntMax then Some(v) else None
  }

  /** Integer.toString for a non-negative value. */
  function NatToString(n: nat): (r: string)
    ensures r != [] && AllDigits(r)
  {
    if n < 10 then [('0' as int + n) as char]
    else NatToString(n / 10) + [('0' as int + n % 10) as char]
  }

  /** Integer.toString / string concatenation of an int. */
  function IntToString(n: int): (r: string)
    ensures r != []
  {
    if n < 0 then "-" + NatToString(-n) else NatToString(n)
  }

  /** A printed int is a sign and digits, so it holds no other character. */
  lemma IntToStringChars(n: int)
    ensures forall c :: c in IntToString(n) ==> c == '-' || IsDigit(c)
    ensures n >= 0 ==> IsDigit(IntToString(n)[0])
  {
    if n < 0 {
      assert IntToString(n) == "-" + NatToString(-n);
    }
  }

  lemma {:induction false} NatToStringValue(n: nat)
    ensures DigitsValue(NatToString(n)) == n
  {
    if n >= 10 {
      NatToStringValue(n / 10);
      var s := NatToString(n);
      assert s[..|s| - 1] == NatToString(n / 10);
    }
  }

  /** Printing an int and parsing it back gives the same int. */
  lemma ParseIntToString(n: int)
    requires IntMin <= n <= IntMax
    ensures ParseInt(IntToString(n)) == Some(n)
  {
    if n < 0 {
      NatToStringValue(-n);
      assert IntToString(n)[1..] == NatToString(-n);
    } else {
      NatToStringValue(n);
    }
  }

  // ---------------------------------------------------------------- words

  /** A capitalised name, lower-cased, has nothing to trim and equals the name ignoring
      case. */
  lemma LowerWord(name: string)
    requires name != [] && forall i :: 0 <= i < |name| ==> 'A' <= name[i] <= 'Z'
    ensures EqualsIgnoreCase(name, Trim(ToLower(name)))
  {
    TrimUnchanged(ToLower(name));
    EqualsIgnoreCaseLower(name);
  }

  /** A capitalised name, lower-cased, is made of small letters only. */
  lemma LowerLetters(name: string)
    requires forall i :: 0 <= i < |name| ==> 'A' <= name[i] <= 'Z'
    ensures forall i :: 0 <= i < |ToLower(name)| ==> 'a' <= ToLower(name)[i] <= 'z'
    ensures ',' !in ToLower(name)
  {
    var lower := ToLower(name);
    forall i | 0 <= i < |lower| ensures 'a' <= lower[i] <= 'z' {
      assert lower[i] == LowerChar(name[i]);
    }
  }

  /** Every text equals its lower-case form, ignoring case. */
  lemma EqualsIgnoreCaseLower(s: string)
    ensures EqualsIgnoreCase(s, ToLower(s))
  {
    var lower := ToLower(s);
    forall i | 0 <= i < |s| ensures LowerChar(s[i]) == LowerChar(lower[i]) {
      assert lower[i] == LowerChar(s[i]);
    }
  }
}

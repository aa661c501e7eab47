/**
 * The text normalisation applied to every extracted field (`normalize` in
 * wallE.py): Unicode NFC composition, removal of every code point that has no
 * ASCII encoding, then Python's `str.strip()` of surrounding whitespace.
 */
module TextNormalization {

  /** A code point can be encoded in ASCII when it is below 128. */
  predicate IsAsciiChar(c: char) {
    c as int < 128
  }

  predicate IsAscii(s: string) {
    forall c :: c in s ==> IsAsciiChar(c)
  }

  /**
   * The Unicode NFC transform is not modelled: it is a parameter of every
   * operation that uses it, and the one fact assumed of it is that it leaves
   * an all-ASCII string unchanged (every ASCII code point is its own
   * canonical composition).
   */
  ghost predicate NfcFixesAscii(nfc: string -> string) {
    forall s :: IsAscii(s) ==> nfc(s) == s
  }

  /**
   * `.encode("ascii", "ignore").decode("utf-8", "ignore")`: the encoder drops
   * every code point it cannot encode, and decoding the remaining ASCII bytes
   * gives the same code points back. The result keeps the ASCII code points
   * of the input, in order, and nothing else.
   */
  function DropNonAscii(s: string): (r: string)
    ensures IsAscii(r)
    ensures IsAscii(s) ==> r == s
  {
    if s == [] then []
    else (if IsAsciiChar(s[0]) then [s[0]] else []) + DropNonAscii(s[1..])
  }

  /** The result holds exactly the ASCII code points of the input. */
  lemma {:induction false} DropNonAsciiMembers(s: string, c: char)
    ensures c in DropNonAscii(s) <==> c in s && IsAsciiChar(c)
  {
    if s != [] {
      DropNonAsciiMembers(s[1..], c);
      assert s == [s[0]] + s[1..];
    }
  }

  /** Dropping non-ASCII code points distributes over concatenation, so order is kept. */
  lemma {:induction false} DropNonAsciiAppend(a: string, b: string)
    ensures DropNonAscii(a + b) == DropNonAscii(a) + DropNonAscii(b)
  {
    if a == [] {
      assert a + b == b;
    } else {
      assert (a + b)[1..] == a[1..] + b;
      DropNonAsciiAppend(a[1..], b);
    }
  }

  /**
   * Python's `str.isspace()`: the code points whose bidirectional class is
   * WS, B or S, or whose general category is Zs.
   */
  predicate IsSpace(c: char) {
    var n := c as int;
    || 0x09 <= n <= 0x0D
    || 0x1C <= n <= 0x20
    || n == 0x85
    || n == 0xA0
    || n == 0x1680
    || 0x2000 <= n <= 0x200A
    || n == 0x2028
    || n == 0x2029
    || n == 0x202F
    || n == 0x205F
    || n == 0x3000
  }

  /** The ASCII whitespace that `str.strip()` removes. */
  const AsciiWhitespace: set<char> :=
    {'\t', '\n', '\U{000B}', '\U{000C}', '\r', '\U{001C}', '\U{001D}', '\U{001E}', '\U{001F}', ' '}

  /** On ASCII input, `IsSpace` is exactly membership in the ten-character set above. */
  lemma AsciiSpaceSet(c: char)
    requires IsAsciiChar(c)
    ensures IsSpace(c) <==> c in AsciiWhitespace
  {
    var n := c as int;
    if IsSpace(c) {
      assert 0x09 <= n <= 0x0D || 0x1C <= n <= 0x20;
      assert c == n as char;
    }
  }

  /** Neither the first nor the last code point is whitespace. */
  predicate Trimmed(s: string) {
    s == [] || (!IsSpace(s[0]) && !IsSpace(s[|s| - 1]))
  }

  /** The first position at or after `i` that holds no whitespace, or `|s|`. */
  function StripStart(s: string, i: nat): (k: nat)
    requires i <= |s|
    ensures i <= k <= |s|
    ensures forall p :: i <= p < k ==> IsSpace(s[p])
    ensures k == |s| || !IsSpace(s[k])
    decreases |s| - i
  {
    if i < |s| && IsSpace(s[i]) then StripStart(s, i + 1) else i
  }

  /** The position just after the last non-whitespace code point in `s[lo..j]`, or `lo`. */
  function StripEnd(s: string, lo: nat, j: nat): (k: nat)
    requires lo <= j <= |s|
    ensures lo <= k <= j
    ensures forall p :: k <= p < j ==> IsSpace(s[p])
    ensures k == lo || !IsSpace(s[k - 1])
  {
    if lo < j && IsSpace(s[j - 1]) then StripEnd(s, lo, j - 1) else j
  }

  /**
   * Python's `str.strip()` with no argument: the result is a contiguous slice
   * of the input, everything outside the slice is whitespace, and the slice
   * itself neither starts nor ends with whitespace.
   */
  function Strip(s: string): (r: string)
    ensures Trimmed(r)
    ensures exists i, j :: StripsTo(s, i, j) && r == s[i..j]
  {
    var i := StripStart(s, 0);
    var j := StripEnd(s, i, |s|);
    assert StripsTo(s, i, j);
    assert i < j ==> s[i..j][0] == s[i] && s[i..j][j - i - 1] == s[j - 1];
    s[i..j]
  }

  /** `s[i..j]` is what is left after removing whitespace only, from both ends of `s`. */
  predicate StripsTo(s: string, i: int, j: int) {
    && 0 <= i <= j <= |s|
    && (forall k :: 0 <= k < i ==> IsSpace(s[k]))
    && (forall k :: j <= k < |s| ==> IsSpace(s[k]))
  }

  /**
   * The description of `Strip` above fixes its result: any trimmed slice with
   * only whitespace around it is the stripped string.
   */
  lemma StripUnique(s: string, i: int, j: int)
    requires StripsTo(s, i, j) && Trimmed(s[i..j])
    ensures Strip(s) == s[i..j]
  {
    var r := Strip(s);
    var i', j' :| StripsTo(s, i', j') && r == s[i'..j'];
    if i < j {
      // s[i] is the first non-whitespace position of s, and s[j - 1] the last.
      assert s[i] == s[i..j][0] && s[j - 1] == s[i..j][j - i - 1];
      assert !IsSpace(s[i]) && !IsSpace(s[j - 1]);
      assert i' <= i < j' && i' < j - 1 + 1 <= j';
      assert s[i'] == r[0] && s[j' - 1] == r[|r| - 1];
      assert !IsSpace(s[i']) && !IsSpace(s[j' - 1]);
      assert i == i' && j == j';
    } else {
      // Every position of s is whitespace, so nothing can be left.
      assert i' < |s| ==> IsSpace(s[i']);
      assert |r| == 0;
    }
  }

  /** `normalize(s)` from wallE.py. */
  function Normalize(nfc: string -> string, s: string): (r: string)
    ensures IsAscii(r)
    ensures Trimmed(r)
  {
    var t := DropNonAscii(nfc(s));
    var r := Strip(t);
    assert IsAscii(r) by {
      var i, j :| StripsTo(t, i, j) && r == t[i..j];
      SliceIsAscii(t, i, j);
    }
    r
  }

  /** Every slice of an ASCII string is ASCII. */
  lemma SliceIsAscii(t: string, i: nat, j: nat)
    requires IsAscii(t)
    requires i <= j <= |t|
    ensures IsAscii(t[i..j])
  {
    forall c | c in t[i..j] ensures c in t {
      var k :| 0 <= k < j - i && t[i..j][k] == c;
      assert t[i + k] == c;
    }
  }

  /** A string with no non-ASCII code point and no surrounding whitespace passes through unchanged. */
  lemma NormalizeFixesClean(nfc: string -> string, s: string)
    requires NfcFixesAscii(nfc)
    requires IsAscii(s) && Trimmed(s)
    ensures Normalize(nfc, s) == s
  {
    assert nfc(s) == s;
    assert DropNonAscii(s) == s;
    StripUnique(s, 0, |s|);
    assert s[0..|s|] == s;
  }

  /** `normalize` leaves a string unchanged exactly when it is ASCII and has no surrounding whitespace. */
  lemma NormalizeFixedPoints(nfc: string -> string, s: string)
    requires NfcFixesAscii(nfc)
    ensures Normalize(nfc, s) == s <==> IsAscii(s) && Trimmed(s)
  {
    if IsAscii(s) && Trimmed(s) {
      NormalizeFixesClean(nfc, s);
    }
  }

  /** Normalising twice is the same as normalising once. */
  lemma NormalizeIdempotent(nfc: string -> string, s: string)
    requires NfcFixesAscii(nfc)
    ensures Normalize(nfc, Normalize(nfc, s)) == Normalize(nfc, s)
  {
    NormalizeFixesClean(nfc, Normalize(nfc, s));
  }

  /**
   * Composition, not decomposition: when NFC composes "e" followed by the
   * combining acute accent U+0301 into the single code point U+00E9, that code
   * point has no ASCII encoding and the letter disappears altogether instead
   * of being reduced to "e".
   */
  lemma ComposedLetterIsDropped(nfc: string -> string)
    requires nfc("e\U{0301}") == "\U{00E9}"
    ensures Normalize(nfc, "e\U{0301}") == ""
  {
    assert DropNonAscii("\U{00E9}") == [];
  }

  /**
   * A letter and mark with no precomposed form are left apart by NFC, so
   * only the mark is removed and the base letter stays: "x" with a combining
   * macron becomes "x".
   */
  lemma UncomposedMarkKeepsLetter(nfc: string -> string)
    requires nfc("x\U{0304}") == "x\U{0304}"
    ensures Normalize(nfc, "x\U{0304}") == "x"
  {
    assert "x\U{0304}" == ['x'] + ['\U{0304}'];
    DropNonAsciiAppend(['x'], ['\U{0304}']);
    assert DropNonAscii("x\U{0304}") == "x";
    StripUnique("x", 0, 1);
  }

  /** `normalize` as a first-class function, for the operations that take the normaliser as a parameter. */
  function Normalizer(nfc: string -> string): string -> string {
    s => Normalize(nfc, s)
  }
}

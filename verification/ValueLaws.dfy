/** What readings and comparisons of values mean, apart from how they are computed. */
module ValueLaws {
  import opened Values

  // ---------- Texts ----------

  /** a is a proper prefix of b, or at the first place where they differ a has the smaller character. */
  ghost predicate Precedes(a: string, b: string) {
    exists k :: 0 <= k <= |a| && DiffersAt(a, b, k)
  }

  predicate DiffersAt(a: string, b: string, k: nat) {
    && k <= |a| && k < |b| && a[..k] == b[..k]
    && (k == |a| || a[k] < b[k])
  }

  lemma {:induction false} PrecedesRest(a: string, b: string)
    requires a != [] && b != [] && a[0] == b[0]
    ensures Precedes(a, b) <==> Precedes(a[1..], b[1..])
  {
    if Precedes(a, b) {
      var k :| 0 <= k <= |a| && DiffersAt(a, b, k);
      assert k > 0;
      assert a[1..][..k - 1] == a[..k][1..] && b[1..][..k - 1] == b[..k][1..];
      assert DiffersAt(a[1..], b[1..], k - 1);
    }
    if Precedes(a[1..], b[1..]) {
      var k :| 0 <= k <= |a[1..]| && DiffersAt(a[1..], b[1..], k);
      assert a[..k + 1] == [a[0]] + a[1..][..k] && b[..k + 1] == [b[0]] + b[1..][..k];
      assert DiffersAt(a, b, k + 1);
    }
  }

  /** The comparison of texts is their lexicographic order. */
  lemma {:induction false} CompareTextIsOrder(a: string, b: string)
    ensures CompareText(a, b) == -1 <==> Precedes(a, b)
    ensures CompareText(a, b) == 1 <==> Precedes(b, a)
    ensures CompareText(a, b) == 0 <==> a == b
    ensures -1 <= CompareText(a, b) <= 1
  {
    CompareTextAntisymmetric(a, b);
    if a != [] && b != [] && a[0] == b[0] {
      CompareTextIsOrder(a[1..], b[1..]);
      PrecedesRest(a, b);
      PrecedesRest(b, a);
    } else {
      FirstDecides(a, b);
      FirstDecides(b, a);
    }
  }

  lemma {:induction false} FirstDecides(a: string, b: string)
    requires a == [] || b == [] || a[0] != b[0]
    ensures Precedes(a, b) <==> b != [] && (a == [] || a[0] < b[0])
  {
    if b != [] && (a == [] || a[0] < b[0]) {
      assert DiffersAt(a, b, 0);
    }
    if Precedes(a, b) {
      var k :| 0 <= k <= |a| && DiffersAt(a, b, k);
      if k > 0 { assert a[..k][0] == b[..k][0]; }
    }
  }

  // ---------- Numbers ----------

  /** The types that compare as numbers: the integers, the reals, and BOOLEAN. */
  const NUMERIC := {TINYINT, SMALLINT, INT, BIGINT, FLOAT, DOUBLE, DECIMAL, BOOLEAN}

  /** The number in the payload of a value. */
  predicate HasNumber(v: Value) {
    v.Datum? && !v.p.S?
  }

  function NumberIn(v: Value): real
    requires HasNumber(v)
  {
    match v.p
    case I(n) => n as real
    case D(x) => x
  }

  /** Values of numeric types compare as their numbers do. */
  lemma {:induction false} CompareNumbers(v: Value, w: Value, text: Text)
    requires HasNumber(v) && HasNumber(w) && v.ty in NUMERIC && w.ty in NUMERIC
    ensures var c := CompareTo(v, w, text);
      && c.Some? && -1 <= c.value <= 1
      && (c.value < 0 <==> NumberIn(v) < NumberIn(w))
      && (c.value == 0 <==> NumberIn(v) == NumberIn(w))
      && (c.value > 0 <==> NumberIn(v) > NumberIn(w))
  {
  }

  /** As soon as one value is not of a numeric type, values compare as their texts do. */
  lemma {:induction false} CompareTexts(v: Value, w: Value, text: Text)
    requires v.Datum? && w.Datum? && !(v.ty in NUMERIC && w.ty in NUMERIC)
    ensures var c, a, b := CompareTo(v, w, text), GetString(v, text), GetString(w, text);
      && c.Some? && (c.value < 0 <==> Precedes(a, b)) && (c.value > 0 <==> Precedes(b, a))
      && (c.value == 0 <==> a == b)
  {
    CompareTextIsOrder(GetString(v, text), GetString(w, text));
  }

  /** NULL stands before everything else, and level with NULL. */
  lemma {:induction false} CompareNulls(v: Value, w: Value, text: Text)
    requires v.Null? || w.Null?
    ensures var c := CompareTo(v, w, text);
      && c.Some? && (c.value < 0 <==> v.Null? && w.Datum?) && (c.value > 0 <==> v.Datum? && w.Null?)
  {
  }

  /** Cutting a number to a whole one goes towards zero. */
  lemma {:induction false} TruncatesTowardsZero(x: real)
    ensures var n := Truncate(x) as real;
      && (x >= 0.0 ==> 0.0 <= n <= x < n + 1.0)
      && (x <= 0.0 ==> n - 1.0 < x <= n <= 0.0)
  {
  }

  // ---------- Reading numbers ----------

  lemma {:induction false} DigitsAndBlanks(c: char)
    ensures IsDigit(c) <==> c in "0123456789"
    ensures IsSpace(c) <==> c == ' ' || c in "\t\n\r" || c as int == 11 || c as int == 12
  {
    if IsDigit(c) {
      assert "0123456789"[c as int - 48] == c;
    }
    if c == '\t' { assert "\t\n\r"[0] == c; }
    if c == '\n' { assert "\t\n\r"[1] == c; }
    if c == '\r' { assert "\t\n\r"[2] == c; }
  }

  predicate AllSpaces(s: string) {
    forall i :: 0 <= i < |s| ==> IsSpace(s[i])
  }

  lemma {:induction false} SpacesSkipped(blanks: string, s: string)
    requires AllSpaces(blanks) && (s == "" || !IsSpace(s[0]))
    ensures SkipSpaces(blanks + s) == s
  {
    if blanks == "" {
      assert blanks + s == s;
    } else {
      assert (blanks + s)[1..] == blanks[1..] + s;
      SpacesSkipped(blanks[1..], s);
    }
  }

  lemma {:induction false} DigitsStop(digits: string, junk: string, acc: nat)
    requires (forall i :: 0 <= i < |digits| ==> IsDigit(digits[i])) && (junk == "" || !IsDigit(junk[0]))
    ensures ReadDigits(digits + junk, acc) == ReadDigits(digits, acc)
  {
    if digits == "" {
      assert digits + junk == junk;
    } else {
      assert (digits + junk)[1..] == digits[1..] + junk;
      DigitsStop(digits[1..], junk, 10 * acc + (digits[0] as int - '0' as int));
    }
  }

  /** Reading an integer skips blanks in front, takes a sign, and ignores what follows the digits; it
      fails on a number outside 64 bits. */
  lemma {:induction false} ParseIntReads(blanks: string, sign: string, n: nat, junk: string)
    requires AllSpaces(blanks) && sign in {"", "+", "-"} && (junk == "" || !IsDigit(junk[0]))
    ensures var k: int := n; var m := if sign == "-" then -k else k;
      ParseInt(blanks + (sign + (NatText(n) + junk))) ==
        if -0x8000_0000_0000_0000 <= m <= 0x7fff_ffff_ffff_ffff then Some(m) else None
  {
    var s := sign + (NatText(n) + junk);
    NatTextStarts(n);
    assert s[0] == if sign == "" then NatText(n)[0] else sign[0];
    SpacesSkipped(blanks, s);
    ReadNatText(n);
    DigitsStop(NatText(n), junk, 0);
    if sign != "" { assert s[1..] == NatText(n) + junk; } else { assert s == NatText(n) + junk; }
    assert (NatText(n) + junk)[0] == NatText(n)[0];
  }

  lemma {:induction false} NatTextStarts(n: nat)
    ensures NatText(n) != [] && IsDigit(NatText(n)[0]) && !IsSpace(NatText(n)[0])
  {
  }

  /** Without a digit behind blanks and a sign there is no integer. */
  lemma {:induction false} ParseIntFails(blanks: string, sign: string, junk: string)
    requires AllSpaces(blanks) && sign in {"", "+", "-"}
    requires junk == "" || !IsDigit(junk[0])
    requires sign == "" && junk != "" ==> !IsSpace(junk[0]) && junk[0] != '+' && junk[0] != '-'
    ensures ParseInt(blanks + (sign + junk)) == None
  {
    var s := sign + junk;
    if sign == "" {
      assert s == junk;
    } else {
      assert s[0] == sign[0] && s[1..] == junk;
    }
    SpacesSkipped(blanks, s);
  }

  // ---------- Truth ----------

  /** A number is true unless it is zero, and a text exactly if it spells true, 1 or yes. */
  lemma {:induction false} TruthOf(v: Value)
    requires v.Datum?
    ensures HasNumber(v) ==> (GetBool(v) <==> NumberIn(v) != 0.0)
    ensures v.p.S? ==> (GetBool(v) <==> Spells(v.p.s, "true") || v.p.s == "1" || Spells(v.p.s, "yes"))
  {
    if v.p.S? {
      SpellsIsLower(v.p.s, "true");
      SpellsIsLower(v.p.s, "yes");
      if Lower(v.p.s) == "1" {
        assert LowerChar(v.p.s[0]) == Lower(v.p.s)[0] == '1';
        assert v.p.s == "1";
      }
      if v.p.s == "1" { assert Lower(v.p.s)[0] == '1'; }
    }
  }

  /** Letter by letter the word, in lower case or in capitals. */
  predicate Spells(s: string, word: string) {
    |s| == |word| && forall i :: 0 <= i < |s| ==> s[i] == word[i] || s[i] as int + 32 == word[i] as int
  }

  lemma {:induction false} SpellsIsLower(s: string, word: string)
    requires forall i :: 0 <= i < |word| ==> 'a' <= word[i] <= 'z'
    ensures Spells(s, word) <==> Lower(s) == word
  {
    assert |Lower(s)| == |s|;
    assert forall i :: 0 <= i < |s| ==> Lower(s)[i] == LowerChar(s[i]);
    if |s| == |word| {
      forall i | 0 <= i < |s|
        ensures (s[i] == word[i] || s[i] as int + 32 == word[i] as int) <==> LowerChar(s[i]) == word[i]
      {
      }
    }
  }
}

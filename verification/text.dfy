/**
 String primitives the schemas and list filters are built from: `length`,
 `toLowerCase` and `includes`.
 */
module Text {

  /** The UTF-16 code units JavaScript stores for one character: two outside the Basic Multilingual Plane. */
  function Utf16Units(c: char): (n: nat)
    ensures n == 1 <==> c as int < 0x1_0000
    ensures n == 2 <==> c as int >= 0x1_0000
  {
    if c as int >= 0x1_0000 then 2 else 1
  }

  /** `String.prototype.length`, which counts UTF-16 code units rather than characters. */
  function Utf16Length(s: string): (n: nat)
    ensures |s| <= n <= 2 * |s|
    decreases |s|
  {
    if |s| == 0 then 0 else Utf16Units(s[0]) + Utf16Length(s[1..])
  }

  /** Lengths add up over a concatenation. */
  lemma {:induction false} Utf16LengthAppend(a: string, b: string)
    ensures Utf16Length(a + b) == Utf16Length(a) + Utf16Length(b)
    decreases |a|
  {
    if |a| == 0 {
      assert a + b == b;
    } else {
      assert (a + b)[0] == a[0];
      assert (a + b)[1..] == a[1..] + b;
      Utf16LengthAppend(a[1..], b);
    }
  }

  /** The length counts characters exactly when no character lies outside the Basic Multilingual Plane. */
  lemma {:induction false} Utf16LengthBmp(s: string)
    ensures Utf16Length(s) == |s| <==> forall i :: 0 <= i < |s| ==> s[i] as int < 0x1_0000
    decreases |s|
  {
    if |s| > 0 {
      Utf16LengthBmp(s[1..]);
      if Utf16Length(s) == |s| {
        forall i | 0 <= i < |s|
          ensures s[i] as int < 0x1_0000
        {
          if i > 0 { assert s[i] == s[1..][i - 1]; }
        }
      } else {
        assert Utf16Units(s[0]) == 2 || Utf16Length(s[1..]) != |s[1..]|;
      }
    }
  }

  predicate IsUpper(c: char)
  {
    'A' <= c <= 'Z'
  }

  /** `toLowerCase` on one character; only the ASCII letters are mapped. */
  function LowerChar(c: char): (r: char)
    ensures IsUpper(c) ==> r as int == c as int + 32
    ensures !IsUpper(c) ==> r == c
    ensures !IsUpper(r)
  {
    if IsUpper(c) then (c as int + 32) as char else c
  }

  /** `String.prototype.toLowerCase`, character by character. */
  function Lower(s: string): (r: string)
    ensures |r| == |s|
    ensures forall i :: 0 <= i < |s| ==> r[i] == LowerChar(s[i])
  {
    if |s| == 0 then "" else [LowerChar(s[0])] + Lower(s[1..])
  }

  lemma LowerIdempotent(s: string)
    ensures Lower(Lower(s)) == Lower(s)
  {
    assert forall i :: 0 <= i < |s| ==> LowerChar(LowerChar(s[i])) == LowerChar(s[i]);
  }

  /** A string of characters outside the Basic Multilingual Plane is twice as long as it has characters. */
  lemma {:induction false} Utf16LengthAstral(s: string)
    requires forall i :: 0 <= i < |s| ==> s[i] as int >= 0x1_0000
    ensures Utf16Length(s) == 2 * |s|
    decreases |s|
  {
    if |s| > 0 {
      assert forall i :: 0 <= i < |s[1..]| ==> s[1..][i] == s[i + 1];
      Utf16LengthAstral(s[1..]);
    }
  }

  /** `q` occurs in `s` starting at offset `i`. */
  predicate OccursAt(s: string, q: string, i: int)
  {
    0 <= i && i + |q| <= |s| && s[i..i + |q|] == q
  }

  /** A lowered string holds no upper-case letter. */
  lemma LowerHasNoUpper(s: string)
    ensures forall i :: 0 <= i < |Lower(s)| ==> !IsUpper(Lower(s)[i])
  {
  }

  /** Where a query without upper-case letters occurs, the string has none either. */
  lemma MatchHasNoUpper(s: string, q: string, i: int)
    requires OccursAt(s, q, i)
    requires forall j :: 0 <= j < |q| ==> !IsUpper(q[j])
    ensures forall k :: i <= k < i + |q| ==> !IsUpper(s[k])
  {
    forall k | i <= k < i + |q|
      ensures !IsUpper(s[k])
    {
      assert s[i..i + |q|][k - i] == s[k];
    }
  }

  /** `s.includes(q)`: `q` occurs in `s` at some offset. */
  predicate Contains(s: string, q: string)
  {
    exists i | 0 <= i <= |s| :: OccursAt(s, q, i)
  }

  /** `s.toLowerCase().includes(q.toLowerCase())`. */
  predicate ContainsIgnoreCase(s: string, q: string)
  {
    Contains(Lower(s), Lower(q))
  }

  lemma ContainsEmpty(s: string)
    ensures Contains(s, "")
  {
    assert OccursAt(s, "", 0);
  }

  /** A naive search for `q` in `s`, the way `includes` scans its receiver. */
  method Includes(s: string, q: string) returns (found: bool)
    ensures found <==> Contains(s, q)
  {
    if |q| > |s| {
      return false;
    }
    var i := 0;
    while i <= |s| - |q|
      invariant 0 <= i <= |s| - |q| + 1
      invariant forall j :: 0 <= j < i ==> !OccursAt(s, q, j)
    {
      if s[i..i + |q|] == q {
        assert OccursAt(s, q, i);
        return true;
      }
      i := i + 1;
    }
    return false;
  }
}

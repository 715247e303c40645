/** What trimming, case mapping and byte order mean, position by position. */
module Text {
  import opened Basics

  /** The spaces by code point: tab to carriage return, blank, next line and no-break space. */
  lemma SpacesExactly(c: char)
    ensures IsSpace(c) <==> 9 <= c as int <= 13 || c as int == 32 || c as int == 133 || c as int == 160
  {
  }

  predicate AllSpaces(s: string) {
    forall i :: 0 <= i < |s| ==> IsSpace(s[i])
  }

  /** Nothing but spaces on either side of a text that neither begins nor ends with one. */
  predicate TrimmedFrom(t: string, s: string, i: nat, j: nat) {
    && i <= j <= |s| && t == s[i..j] && AllSpaces(s[..i]) && AllSpaces(s[j..])
    && (t != "" ==> !IsSpace(t[0]) && !IsSpace(t[|t| - 1]))
  }

  lemma {:induction false} TrimLeftCuts(s: string) returns (i: nat)
    ensures i <= |s| && TrimLeft(s) == s[i..] && AllSpaces(s[..i]) && (i < |s| ==> !IsSpace(s[i]))
  {
    if s != [] && IsSpace(s[0]) {
      var k := TrimLeftCuts(s[1..]);
      i := k + 1;
      assert s[1..][k..] == s[i..];
      assert s[..i] == [s[0]] + s[1..][..k];
    } else {
      i := 0;
    }
  }

  lemma {:induction false} TrimRightCuts(s: string) returns (j: nat)
    ensures j <= |s| && TrimRight(s) == s[..j] && AllSpaces(s[j..]) && (j > 0 ==> !IsSpace(s[j - 1]))
  {
    if s != [] && IsSpace(s[|s| - 1]) {
      var n := |s| - 1;
      j := TrimRightCuts(s[..n]);
      assert s[..n][..j] == s[..j];
      assert s[j..] == s[..n][j..] + [s[n]];
    } else {
      j := |s|;
    }
  }

  /** Trimming takes exactly the spaces at both ends. */
  lemma TrimSpaceCuts(s: string) returns (i: nat, j: nat)
    ensures TrimmedFrom(TrimSpace(s), s, i, j)
  {
    i := TrimLeftCuts(s);
    var k := TrimRightCuts(s[i..]);
    j := i + k;
    assert s[i..][..k] == s[i..j] && s[i..][k..] == s[j..];
  }

  /** A text is blank exactly when it holds nothing but spaces. */
  lemma BlankExactly(s: string)
    ensures Blank(s) <==> AllSpaces(s)
  {
    var i, j := TrimSpaceCuts(s);
    if Blank(s) {
      assert s == s[..i] + s[j..];
    } else {
      assert TrimSpace(s)[0] == s[i];
    }
  }

  /** Trimming and case mapping neither make a text blank nor the other way round. */
  lemma BlankNormalised(s: string)
    ensures Blank(TrimSpace(s)) <==> Blank(s)
    ensures Blank(ToUpper(TrimSpace(s))) <==> Blank(s)
    ensures Blank(ToLower(TrimSpace(s))) <==> Blank(s)
    ensures ToLower(TrimSpace(s)) == "" <==> Blank(s)
  {
    var i, j := TrimSpaceCuts(s);
    var t := TrimSpace(s);
    BlankExactly(t);
    BlankExactly(ToUpper(t));
    BlankExactly(ToLower(t));
    if t != "" {
      assert !IsSpace(t[0]) && !IsSpace(ToUpper(t)[0]) && !IsSpace(ToLower(t)[0]);
    }
  }

  const UPPER_CASE := "ABCDEFGHIJKLMNOPQRSTUVWXYZ"
  const LOWER_CASE := "abcdefghijklmnopqrstuvwxyz"

  /** Case mapping exchanges the k-th letters of the two alphabets and leaves every other character. */
  lemma CaseMapping(c: char, k: nat)
    requires k < 26
    ensures LowerChar(UPPER_CASE[k]) == LOWER_CASE[k] && UpperChar(LOWER_CASE[k]) == UPPER_CASE[k]
    ensures c !in UPPER_CASE ==> LowerChar(c) == c
    ensures c !in LOWER_CASE ==> UpperChar(c) == c
  {
    if 'A' <= c <= 'Z' {
      assert UPPER_CASE[c as int - 'A' as int] == c;
    }
    if 'a' <= c <= 'z' {
      assert LOWER_CASE[c as int - 'a' as int] == c;
    }
  }

  // ---- byte order ----------------------------------------------------------------------------

  /** The texts agree up to position i, where the first one ends or has the smaller byte. */
  predicate SmallerAt(a: seq<byte>, b: seq<byte>, i: nat) {
    i <= |a| && i < |b| && a[..i] == b[..i] && (i == |a| || a[i] < b[i])
  }

  ghost predicate SmallerId(a: Id, b: Id) {
    exists i: nat :: SmallerAt(a.bytes, b.bytes, i)
  }

  lemma {:induction false} FirstDifference(a: seq<byte>, b: seq<byte>)
    ensures BytesLess(a, b) <==> exists i: nat :: SmallerAt(a, b, i)
  {
    if a == [] || b == [] || a[0] != b[0] {
      if BytesLess(a, b) {
        assert SmallerAt(a, b, 0);
      }
    } else {
      FirstDifference(a[1..], b[1..]);
      if i: nat :| SmallerAt(a[1..], b[1..], i) {
        assert a[..i + 1] == [a[0]] + a[1..][..i] && b[..i + 1] == [b[0]] + b[1..][..i];
        assert SmallerAt(a, b, i + 1);
      }
      if i: nat :| SmallerAt(a, b, i) {
        if i > 0 {
          assert a[1..][..i - 1] == a[..i][1..] && b[1..][..i - 1] == b[..i][1..];
        }
        assert SmallerAt(a[1..], b[1..], i - 1);
      }
    }
  }

  /** Identifiers are ordered by their first differing byte, a prefix before its extensions. */
  lemma IdOrder(a: Id, b: Id)
    ensures IdLess(a, b) <==> SmallerId(a, b)
  {
    FirstDifference(a.bytes, b.bytes);
  }
}

/** Class labels: the predefined vocabulary, the normalisation
    `text.trim().toLowerCase()` applied to every label typed or imported, and
    the order `Array.from(knownClasses).sort()` puts the class list in. */
module Labels {

  const PREDEFINED_CLASSES: seq<string> := ["palma", "tenar", "hipotenar", "infradigital", "lateral"]

  /** The characters `String.prototype.trim` removes: ECMAScript WhiteSpace
      (tab, vertical tab, form feed, space, no-break space, byte order mark and
      the Space_Separator characters) and LineTerminator. */
  predicate IsWhitespace(c: char) {
    || c == '\t' || c == '\n' || c == '\U{000B}' || c == '\U{000C}' || c == '\r' || c == ' '
    || c == '\U{00A0}' || c == '\U{1680}' || ('\U{2000}' <= c <= '\U{200A}')
    || c == '\U{2028}' || c == '\U{2029}' || c == '\U{202F}' || c == '\U{205F}'
    || c == '\U{3000}' || c == '\U{FEFF}'
  }

  /** `s` without its leading whitespace. */
  function TrimStart(s: string): (r: string)
    ensures |r| <= |s| && r == s[|s| - |r|..]
    ensures forall k :: 0 <= k < |s| - |r| ==> IsWhitespace(s[k])
    ensures r == [] || !IsWhitespace(r[0])
  {
    if |s| > 0 && IsWhitespace(s[0]) then
      var t := s[1..];
      var r := TrimStart(t);
      assert t[|t| - |r|..] == s[|s| - |r|..];
      assert forall k :: 1 <= k < |s| ==> s[k] == t[k - 1];
      r
    else s
  }

  /** `s` without its trailing whitespace. */
  function TrimEnd(s: string): (r: string)
    ensures |r| <= |s| && r == s[..|r|]
    ensures forall k :: |r| <= k < |s| ==> IsWhitespace(s[k])
    ensures r == [] || !IsWhitespace(r[|r| - 1])
  {
    if |s| > 0 && IsWhitespace(s[|s| - 1]) then
      var t := s[..|s| - 1];
      var r := TrimEnd(t);
      assert t[..|r|] == s[..|r|];
      assert forall k :: 0 <= k < |t| ==> s[k] == t[k];
      r
    else s
  }

  /** `trim()`: the text without its leading and trailing whitespace. */
  function Trim(s: string): (r: string)
    ensures |r| <= |s|
    ensures r == [] || (!IsWhitespace(r[0]) && !IsWhitespace(r[|r| - 1]))
  {
    var a := TrimStart(s);
    var r := TrimEnd(a);
    assert r != [] ==> r[0] == a[0];
    r
  }

  /** `r` sits in `s` at position `i`, with only whitespace around it. */
  predicate TrimmedAt(s: string, r: string, i: int) {
    && 0 <= i <= |s| - |r| && r == s[i..i + |r|]
    && (forall k :: 0 <= k < i ==> IsWhitespace(s[k]))
    && (forall k :: i + |r| <= k < |s| ==> IsWhitespace(s[k]))
  }

  /** `trim()` removes nothing but whitespace, and only from the ends. */
  lemma TrimRemovesWhitespace(s: string)
    ensures exists i :: TrimmedAt(s, Trim(s), i)
  {
    var a := TrimStart(s);
    var r := TrimEnd(a);
    var i := |s| - |a|;
    assert a == s[i..] && r == a[..|r|];
    assert r == s[i..i + |r|];
    forall k | i + |r| <= k < |s| ensures IsWhitespace(s[k]) {
      assert s[k] == a[k - i];
    }
    assert TrimmedAt(s, r, i);
    assert Trim(s) == r;
  }

  /** `toLowerCase()` on one character, for the ASCII and Latin-1 letters. */
  function LowerChar(c: char): (d: char)
    ensures IsWhitespace(c) <==> IsWhitespace(d)
  {
    if 'A' <= c <= 'Z' then (c as int + 32) as char
    else if '\U{00C0}' <= c <= '\U{00DE}' && c != '\U{00D7}' then (c as int + 32) as char
    else c
  }

  function ToLower(s: string): (r: string)
    ensures |r| == |s|
    ensures forall k :: 0 <= k < |s| ==> r[k] == LowerChar(s[k])
  {
    seq(|s|, k requires 0 <= k < |s| => LowerChar(s[k]))
  }

  /** The label a typed or imported class name denotes: `trim().toLowerCase()`. */
  function Normalize(s: string): string {
    ToLower(Trim(s))
  }

  /** A label as the store keeps it: non-empty, no outer whitespace and no
      upper-case letter (`NormalLabelMeans`: exactly the non-empty texts that
      `Normalize` leaves alone). */
  predicate IsNormalLabel(s: string) {
    && s != [] && !IsWhitespace(s[0]) && !IsWhitespace(s[|s| - 1])
    && forall k :: 0 <= k < |s| ==> LowerChar(s[k]) == s[k]
  }

  lemma LowerCharIdempotent(c: char)
    ensures LowerChar(LowerChar(c)) == LowerChar(c)
  {
  }

  /** Normalising twice is normalising once. */
  lemma NormalizeIdempotent(s: string)
    ensures Normalize(Normalize(s)) == Normalize(s)
  {
    var t := Trim(s);
    var u := ToLower(t);
    assert Trim(u) == u by {
      TrimUntouched(u);
    }
    forall k | 0 <= k < |u| ensures ToLower(u)[k] == u[k] {
      LowerCharIdempotent(t[k]);
    }
  }

  lemma TrimUntouched(s: string)
    requires s == [] || (!IsWhitespace(s[0]) && !IsWhitespace(s[|s| - 1]))
    ensures Trim(s) == s
  {
  }

  /** Every non-empty normalised text is a storable label. */
  lemma NormalizedIsNormal(s: string)
    requires Normalize(s) != []
    ensures IsNormalLabel(Normalize(s))
  {
    var t := Trim(s);
    var u := ToLower(t);
    assert u[0] == LowerChar(t[0]) && u[|u| - 1] == LowerChar(t[|t| - 1]);
    forall k | 0 <= k < |u| ensures LowerChar(u[k]) == u[k] {
      LowerCharIdempotent(t[k]);
    }
  }

  /** The normal labels are exactly the non-empty texts `Normalize` leaves alone. */
  lemma NormalLabelMeans(s: string)
    ensures IsNormalLabel(s) <==> s != [] && Normalize(s) == s
  {
    if IsNormalLabel(s) {
      TrimUntouched(s);
      assert ToLower(s) == s;
    }
    if s != [] && Normalize(s) == s {
      NormalizedIsNormal(s);
    }
  }

  /** The predefined classes are normal labels. */
  lemma PredefinedAreNormal()
    ensures forall c :: c in PREDEFINED_CLASSES ==> IsNormalLabel(c)
  {
    forall i | 0 <= i < |PREDEFINED_CLASSES| ensures IsNormalLabel(PREDEFINED_CLASSES[i]) {
      var s := PREDEFINED_CLASSES[i];
      assert forall k :: 0 <= k < |s| ==> 'a' <= s[k] <= 'z';
    }
  }

  // ----- the order of `Array.prototype.sort` on strings -----

  /** Lexicographic order by character code. */
  predicate StrLess(a: string, b: string) {
    if |a| == 0 then |b| > 0
    else if |b| == 0 then false
    else if a[0] < b[0] then true
    else if a[0] == b[0] then StrLess(a[1..], b[1..])
    else false
  }

  lemma {:induction false} StrLessIrreflexive(a: string)
    ensures !StrLess(a, a)
  {
    if |a| > 0 {
      StrLessIrreflexive(a[1..]);
    }
  }

  lemma {:induction false} StrLessTransitive(a: string, b: string, c: string)
    requires StrLess(a, b) && StrLess(b, c)
    ensures StrLess(a, c)
  {
    if |a| > 0 && |b| > 0 && |c| > 0 && a[0] == b[0] && b[0] == c[0] {
      StrLessTransitive(a[1..], b[1..], c[1..]);
    }
  }

  lemma {:induction false} StrLessTotal(a: string, b: string)
    requires a != b
    ensures StrLess(a, b) || StrLess(b, a)
  {
    if |a| > 0 && |b| > 0 && a[0] == b[0] {
      assert a == [a[0]] + a[1..] && b == [b[0]] + b[1..];
      StrLessTotal(a[1..], b[1..]);
    }
  }

  lemma StrLessAsymmetric(a: string, b: string)
    requires StrLess(a, b)
    ensures !StrLess(b, a)
  {
    if StrLess(b, a) {
      StrLessTransitive(a, b, a);
      StrLessIrreflexive(a);
    }
  }

  /** `m` is the least element of `s`. */
  predicate IsLeast(m: string, s: set<string>) {
    m in s && forall x :: x in s && x != m ==> StrLess(m, x)
  }

  /** Adding `y` to a set whose least element is `m` leaves `m` or `y` least. */
  lemma LeastOfAdded(m: string, y: string, rest: set<string>)
    requires IsLeast(m, rest) && y !in rest
    ensures IsLeast(m, rest + {y}) || IsLeast(y, rest + {y})
  {
    var s := rest + {y};
    if StrLess(m, y) {
      forall x | x in s && x != m ensures StrLess(m, x) {
        if x != y {
          assert x in rest;
        }
      }
      assert IsLeast(m, s);
    } else {
      StrLessTotal(m, y);
      forall x | x in s && x != y ensures StrLess(y, x) {
        if x != m {
          assert x in rest;
          StrLessTransitive(y, m, x);
        }
      }
      assert IsLeast(y, s);
    }
  }

  /** Every finite non-empty set of strings has a least element. */
  lemma {:induction false} LeastExists(s: set<string>)
    requires s != {}
    ensures exists m :: IsLeast(m, s)
    decreases |s|
  {
    var y :| y in s;
    if s == {y} {
      assert IsLeast(y, s);
    } else {
      var rest := s - {y};
      LeastExists(rest);
      var m :| IsLeast(m, rest);
      LeastOfAdded(m, y, rest);
      assert rest + {y} == s;
    }
  }

  predicate StrictlySorted(r: seq<string>) {
    forall i, j :: 0 <= i < j < |r| ==> StrLess(r[i], r[j])
  }

  /** `Array.from(knownClasses).sort()`: the classes in increasing order, each once. */
  ghost function SortedClasses(s: set<string>): (r: seq<string>)
    ensures StrictlySorted(r)
    ensures forall x :: x in r <==> x in s
    ensures |r| == |s|
    decreases |s|
  {
    if s == {} then []
    else
      LeastExists(s);
      var m :| IsLeast(m, s);
      var rest := SortedClasses(s - {m});
      assert forall j :: 0 <= j < |rest| ==> StrLess(m, rest[j]) by {
        forall j | 0 <= j < |rest| ensures StrLess(m, rest[j]) {
          assert rest[j] in s - {m};
        }
      }
      [m] + rest
  }

  /** In the sorted class list, exactly the classes before a class are smaller than it. */
  lemma SortedPosition(s: set<string>, i: nat)
    requires i < |SortedClasses(s)|
    ensures var r := SortedClasses(s);
      forall x :: x in s ==> (StrLess(x, r[i]) <==> exists j :: 0 <= j < i && r[j] == x)
  {
    var r := SortedClasses(s);
    forall x | x in s ensures StrLess(x, r[i]) <==> exists j :: 0 <= j < i && r[j] == x {
      var k :| 0 <= k < |r| && r[k] == x;
      if k < i {
        assert StrLess(x, r[i]);
      } else if k == i {
        StrLessIrreflexive(x);
        assert forall j :: 0 <= j < i ==> r[j] != x by {
          forall j | 0 <= j < i ensures r[j] != x {
            assert StrLess(r[j], r[i]);
            if r[j] == x { StrLessIrreflexive(x); }
          }
        }
      } else {
        assert StrLess(r[i], x);
        StrLessAsymmetric(r[i], x);
        forall j | 0 <= j < i ensures r[j] != x {
          assert StrLess(r[j], r[i]);
          StrLessAsymmetric(r[j], r[i]);
        }
      }
    }
  }
}

/** Values and sequence/string helpers shared by every part of the model:
    optional values (JavaScript `undefined`/`null`), document identifiers,
    MongoDB's `$pull` / `Array.prototype.filter` removal, `String.prototype.trim`,
    `String.prototype.split` and the decimal rendering of `Number.prototype.toString`. */
module Common {

  /** An optional value; `None` stands for a JavaScript `undefined` or `null`. */
  datatype Option<+T> = None | Some(value: T) {
    function GetOr(default: T): T {
      match this
      case Some(v) => v
      case None => default
    }
  }

  /** Document identifiers are the hexadecimal strings of MongoDB ObjectIds. */
  type UserId = string
  type PostId = string
  type CommentId = string

  /** JavaScript truthiness of an optional string: `undefined`, `null` and `""` are falsy. */
  predicate Truthy(s: Option<string>) {
    s.Some? && s.value != ""
  }

  /** No element occurs twice. */
  ghost predicate NoDup<T>(xs: seq<T>) {
    forall i, j :: 0 <= i < j < |xs| ==> xs[i] != xs[j]
  }

  // ---------------------------------------------------------------------------
  // Removal of every occurrence ($pull, filter(x => x !== v))
  // ---------------------------------------------------------------------------

  /** Every occurrence of `v` removed, the other elements kept in order. */
  function RemoveAll<T(==,!new)>(xs: seq<T>, v: T): (r: seq<T>)
    ensures v !in r
    ensures forall x :: x in r <==> x in xs && x != v
    ensures |r| <= |xs|
  {
    if xs == [] then []
    else if xs[0] == v then
      RemoveAll(xs[1..], v)
    else
      [xs[0]] + RemoveAll(xs[1..], v)
  }

  /** Removing an element that is not there changes nothing. */
  lemma {:induction false} RemoveAllAbsent<T(!new)>(xs: seq<T>, v: T)
    requires v !in xs
    ensures RemoveAll(xs, v) == xs
  {
    if xs != [] {
      RemoveAllAbsent(xs[1..], v);
    }
  }

  /** Removal distributes over concatenation. */
  lemma {:induction false} RemoveAllConcat<T(!new)>(a: seq<T>, b: seq<T>, v: T)
    ensures RemoveAll(a + b, v) == RemoveAll(a, v) + RemoveAll(b, v)
  {
    if a == [] {
      assert a + b == b;
    } else {
      assert (a + b)[1..] == a[1..] + b;
      RemoveAllConcat(a[1..], b, v);
    }
  }

  /** Removal keeps every other element with its multiplicity and drops all copies of `v`;
      with `RemoveAllConcat` this pins the result down as the order-preserving filter. */
  lemma {:induction false} RemoveAllMultiset<T(!new)>(xs: seq<T>, v: T)
    ensures multiset(RemoveAll(xs, v)) == multiset(xs)[v := 0]
  {
    if xs != [] {
      assert xs == [xs[0]] + xs[1..];
      RemoveAllMultiset(xs[1..], v);
    }
  }

  /** An append (`$push`, `Array.prototype.push`) of an absent element is undone by a removal. */
  lemma AppendThenRemove<T(!new)>(xs: seq<T>, v: T)
    requires v !in xs
    ensures RemoveAll(xs + [v], v) == xs
  {
    RemoveAllConcat(xs, [v], v);
    RemoveAllAbsent(xs, v);
    assert RemoveAll([v], v) == [];
  }

  /** Removing from a duplicate-free sequence removes exactly one element and keeps it duplicate-free. */
  lemma {:induction false} RemoveAllDistinct<T(!new)>(xs: seq<T>, v: T)
    requires NoDup(xs)
    ensures NoDup(RemoveAll(xs, v))
    ensures v in xs ==> |RemoveAll(xs, v)| == |xs| - 1
  {
    if xs != [] {
      assert NoDup(xs[1..]) by {
        forall i, j | 0 <= i < j < |xs[1..]| ensures xs[1..][i] != xs[1..][j] {
          assert xs[1..][i] == xs[i + 1] && xs[1..][j] == xs[j + 1];
        }
      }
      RemoveAllDistinct(xs[1..], v);
      if xs[0] == v {
        assert v !in xs[1..] by {
          forall k | 0 <= k < |xs[1..]| ensures xs[1..][k] != v {
            assert xs[1..][k] == xs[k + 1];
          }
        }
        RemoveAllAbsent(xs[1..], v);
      } else {
        var rest := RemoveAll(xs[1..], v);
        assert xs[0] !in rest by {
          forall k | 0 <= k < |xs[1..]| ensures xs[1..][k] != xs[0] {
            assert xs[1..][k] == xs[k + 1];
          }
        }
        assert NoDup([xs[0]] + rest) by {
          forall i, j | 0 <= i < j < |[xs[0]] + rest| ensures ([xs[0]] + rest)[i] != ([xs[0]] + rest)[j] {
            if i == 0 {
              assert ([xs[0]] + rest)[j] == rest[j - 1];
            } else {
              assert ([xs[0]] + rest)[i] == rest[i - 1] && ([xs[0]] + rest)[j] == rest[j - 1];
            }
          }
        }
        if v in xs {
          assert v in xs[1..] by {
            var k :| 0 <= k < |xs| && xs[k] == v;
            assert k != 0 && xs[1..][k - 1] == v;
          }
        }
      }
    }
  }

  /** Appending an absent element keeps a sequence duplicate-free. */
  lemma AppendDistinct<T>(xs: seq<T>, v: T)
    requires NoDup(xs) && v !in xs
    ensures NoDup(xs + [v])
  {
    forall i, j | 0 <= i < j < |xs + [v]| ensures (xs + [v])[i] != (xs + [v])[j] {
      if j == |xs| {
        assert (xs + [v])[i] == xs[i];
      } else {
        assert (xs + [v])[i] == xs[i] && (xs + [v])[j] == xs[j];
      }
    }
  }

  /** A duplicate-free sequence holds each element at most once. */
  lemma {:induction false} DistinctCount<T>(xs: seq<T>, x: T)
    requires NoDup(xs)
    ensures multiset(xs)[x] <= 1
  {
    if xs != [] {
      assert xs == [xs[0]] + xs[1..];
      assert NoDup(xs[1..]) by {
        forall i, j | 0 <= i < j < |xs[1..]| ensures xs[1..][i] != xs[1..][j] {
          assert xs[1..][i] == xs[i + 1] && xs[1..][j] == xs[j + 1];
        }
      }
      DistinctCount(xs[1..], x);
      if xs[0] == x {
        assert x !in xs[1..] by {
          forall k | 0 <= k < |xs[1..]| ensures xs[1..][k] != x {
            assert xs[1..][k] == xs[k + 1];
          }
        }
      }
    }
  }

  /** A reordering of a duplicate-free sequence is duplicate-free. */
  lemma PermutationDistinct<T>(xs: seq<T>, ys: seq<T>)
    requires NoDup(xs) && multiset(xs) == multiset(ys)
    ensures NoDup(ys)
  {
    forall i, j | 0 <= i < j < |ys| ensures ys[i] != ys[j] {
      if ys[i] == ys[j] {
        assert ys == ys[..j] + ys[j..];
        assert ys[i] in ys[..j] && ys[j] in ys[j..];
        assert multiset(ys)[ys[i]] == multiset(ys[..j])[ys[i]] + multiset(ys[j..])[ys[i]];
        DistinctCount(xs, ys[i]);
        assert false;
      }
    }
  }

  // ---------------------------------------------------------------------------
  // JavaScript string length
  // ---------------------------------------------------------------------------

  /** `String.prototype.length`, which counts UTF-16 code units: a character outside the
      Basic Multilingual Plane is a surrogate pair and counts twice. This is the length the
      schema's `minlength` and `maxlength` compare. */
  function Utf16Length(s: string): (n: nat)
    ensures |s| <= n <= 2 * |s|
    ensures n == |s| <==> forall i :: 0 <= i < |s| ==> (s[i] as int) < 0x10000
  {
    if s == [] then 0
    else
      var rest := Utf16Length(s[1..]);
      assert forall i :: 1 <= i < |s| ==> s[1..][i - 1] == s[i];
      (if (s[0] as int) < 0x10000 then 1 else 2) + rest
  }

  /** A string of characters outside the Basic Multilingual Plane (emoji, say) has twice
      as many code units as characters. */
  lemma {:induction false} AstralLength(s: string)
    requires forall i :: 0 <= i < |s| ==> (s[i] as int) >= 0x10000
    ensures Utf16Length(s) == 2 * |s|
  {
    if s != [] {
      assert forall i :: 0 <= i < |s[1..]| ==> s[1..][i] == s[i + 1];
      AstralLength(s[1..]);
    }
  }

  /** Elements of `xs` that satisfy `keep`, in order (`Array.prototype.filter`; also what
      Mongoose's `populate` keeps of an array of references: the ones whose document exists). */
  function Filter<T(!new)>(xs: seq<T>, keep: T -> bool): (r: seq<T>)
    ensures |r| <= |xs|
    ensures forall x :: x in r <==> x in xs && keep(x)
  {
    if xs == [] then []
    else if keep(xs[0]) then
      assert xs == [xs[0]] + xs[1..];
      [xs[0]] + Filter(xs[1..], keep)
    else
      assert xs == [xs[0]] + xs[1..];
      Filter(xs[1..], keep)
  }

  /** Filtering keeps a sequence duplicate-free. */
  lemma {:induction false} FilterDistinct<T(!new)>(xs: seq<T>, keep: T -> bool)
    requires NoDup(xs)
    ensures NoDup(Filter(xs, keep))
  {
    if xs != [] {
      assert NoDup(xs[1..]) by {
        forall i, j | 0 <= i < j < |xs[1..]| ensures xs[1..][i] != xs[1..][j] {
          assert xs[1..][i] == xs[i + 1] && xs[1..][j] == xs[j + 1];
        }
      }
      FilterDistinct(xs[1..], keep);
      var rest := Filter(xs[1..], keep);
      if keep(xs[0]) {
        assert xs[0] !in rest by {
          forall k | 0 <= k < |xs[1..]| ensures xs[1..][k] != xs[0] {
            assert xs[1..][k] == xs[k + 1];
          }
        }
        forall i, j | 0 <= i < j < |[xs[0]] + rest| ensures ([xs[0]] + rest)[i] != ([xs[0]] + rest)[j] {
          if i == 0 {
            assert ([xs[0]] + rest)[j] == rest[j - 1];
          } else {
            assert ([xs[0]] + rest)[i] == rest[i - 1] && ([xs[0]] + rest)[j] == rest[j - 1];
          }
        }
      }
    }
  }

  /** A filter that keeps every element returns its input unchanged. */
  lemma {:induction false} FilterAll<T(!new)>(xs: seq<T>, keep: T -> bool)
    requires forall x :: x in xs ==> keep(x)
    ensures Filter(xs, keep) == xs
  {
    if xs != [] {
      FilterAll(xs[1..], keep);
    }
  }

  // ---------------------------------------------------------------------------
  // String.prototype.trim
  // ---------------------------------------------------------------------------

  /** The characters `String.prototype.trim` strips: the ECMAScript WhiteSpace
      (TAB, VT, FF, SP, NBSP, ZWNBSP and the Unicode space separators) and
      LineTerminator (LF, CR, LS, PS) code points. */
  predicate IsJsSpace(c: char) {
    c == '\t' || c == '\n' || c == '\U{000B}' || c == '\U{000C}' || c == '\r' || c == ' ' ||
    c == '\U{00A0}' || c == '\U{1680}' || ('\U{2000}' <= c <= '\U{200A}') ||
    c == '\U{2028}' || c == '\U{2029}' || c == '\U{202F}' || c == '\U{205F}' ||
    c == '\U{3000}' || c == '\U{FEFF}'
  }

  /** The first index at or after `i` that does not hold a space (`|s|` when there is none). */
  function SkipSpaces(s: string, i: nat): (k: nat)
    requires i <= |s|
    ensures i <= k <= |s|
    ensures forall m :: i <= m < k ==> IsJsSpace(s[m])
    ensures k == |s| || !IsJsSpace(s[k])
    decreases |s| - i
  {
    if i < |s| && IsJsSpace(s[i]) then SkipSpaces(s, i + 1) else i
  }

  /** The end of `s[lo..j]` once its trailing spaces are dropped. */
  function SkipSpacesBack(s: string, lo: nat, j: nat): (k: nat)
    requires lo <= j <= |s|
    ensures lo <= k <= j
    ensures forall m :: k <= m < j ==> IsJsSpace(s[m])
    ensures k == lo || !IsJsSpace(s[k - 1])
    decreases j
  {
    if lo < j && IsJsSpace(s[j - 1]) then SkipSpacesBack(s, lo, j - 1) else j
  }

  /** `String.prototype.trim`: the piece between the leading and the trailing spaces. */
  function Trim(s: string): string {
    var a := SkipSpaces(s, 0);
    s[a..SkipSpacesBack(s, a, |s|)]
  }

  /** `trim` returns a contiguous piece of `s` whose removed prefix and suffix are spaces
      only, and neither end of the piece is a space. */
  lemma TrimPiece(s: string)
    ensures var i := SkipSpaces(s, 0);
      && i + |Trim(s)| <= |s| && Trim(s) == s[i..i + |Trim(s)|]
      && (forall k :: 0 <= k < i ==> IsJsSpace(s[k]))
      && (forall k :: i + |Trim(s)| <= k < |s| ==> IsJsSpace(s[k]))
    ensures Trim(s) == [] || (!IsJsSpace(Trim(s)[0]) && !IsJsSpace(Trim(s)[|Trim(s)| - 1]))
  {
    var a := SkipSpaces(s, 0);
    var b := SkipSpacesBack(s, a, |s|);
    assert Trim(s) == s[a..b];
    if a < b {
      assert Trim(s)[0] == s[a];
      assert Trim(s)[|Trim(s)| - 1] == s[b - 1];
    }
  }

  /** `trim` gives the empty string exactly when every character is a space. */
  lemma TrimEmpty(s: string)
    ensures Trim(s) == [] <==> forall i :: 0 <= i < |s| ==> IsJsSpace(s[i])
  {
    var a := SkipSpaces(s, 0);
    var b := SkipSpacesBack(s, a, |s|);
    if a < b {
      assert !IsJsSpace(s[a]);
    }
  }

  // ---------------------------------------------------------------------------
  // String.prototype.split with a one-character separator
  // ---------------------------------------------------------------------------

  /** Position of the first occurrence of `c` in `s`. */
  function FirstIndex(s: string, c: char): (i: nat)
    requires c in s
    ensures i < |s| && s[i] == c && c !in s[..i]
  {
    if s[0] == c then 0
    else
      assert c in s[1..] by {
        var k :| 0 <= k < |s| && s[k] == c;
        assert k != 0 && s[1..][k - 1] == c;
      }
      var j := FirstIndex(s[1..], c);
      assert s[..j + 1] == [s[0]] + s[1..][..j];
      j + 1
  }

  /** `s.split(sep)`: the pieces between separators, in order; there is always at least one
      piece, and no piece contains the separator. */
  function Split(s: string, sep: char): (r: seq<string>)
    ensures |r| >= 1
    ensures forall k :: 0 <= k < |r| ==> sep !in r[k]
    decreases |s|
  {
    if sep !in s then [s]
    else
      var i := FirstIndex(s, sep);
      [s[..i]] + Split(s[i + 1..], sep)
  }

  /** `parts.join(sep)`. */
  function Join(parts: seq<string>, sep: char): string
    requires |parts| >= 1
  {
    if |parts| == 1 then parts[0] else parts[0] + [sep] + Join(parts[1..], sep)
  }

  /** Splitting loses nothing: joining the pieces with the separator gives `s` back. */
  lemma {:induction false} JoinSplit(s: string, sep: char)
    ensures Join(Split(s, sep), sep) == s
    decreases |s|
  {
    if sep in s {
      var i := FirstIndex(s, sep);
      var rest := s[i + 1..];
      JoinSplit(rest, sep);
      var parts := Split(s, sep);
      assert parts == [s[..i]] + Split(rest, sep);
      assert parts[1..] == Split(rest, sep);
      assert Join(parts, sep) == s[..i] + [sep] + Join(Split(rest, sep), sep);
      assert s == s[..i] + [sep] + rest;
    }
  }

  /** A separator-free prefix followed by the separator is the first piece. */
  lemma SplitAfterWord(w: string, sep: char, rest: string)
    requires sep !in w
    ensures Split(w + [sep] + rest, sep) == [w] + Split(rest, sep)
  {
    var s := w + [sep] + rest;
    assert s[|w|] == sep;
    var i := FirstIndex(s, sep);
    assert s[..i] == w;
    assert s[i + 1..] == rest;
  }

  /** A separator-free piece followed by the end of the string or by the separator is the
      first piece. */
  lemma SplitFirstPiece(t: string, sep: char, rest: string)
    requires sep !in t
    requires rest == [] || rest[0] == sep
    ensures Split(t + rest, sep)[0] == t
  {
    if rest == [] {
      assert t + rest == t;
    } else {
      assert t + rest == t + [sep] + rest[1..];
      SplitAfterWord(t, sep, rest[1..]);
    }
  }

  // ---------------------------------------------------------------------------
  // Decimal rendering (Number.prototype.toString on non-negative integers)
  // ---------------------------------------------------------------------------

  function DigitChar(d: nat): (c: char)
    requires d < 10
    ensures '0' <= c <= '9'
  {
    "0123456789"[d]
  }

  function DigitValue(c: char): nat
    requires '0' <= c <= '9'
  {
    (c as int - '0' as int) as nat
  }

  /** The decimal digits of `n`, most significant first, without leading zeros. */
  function NatToString(n: nat): (r: string)
    ensures |r| >= 1
    ensures forall i :: 0 <= i < |r| ==> '0' <= r[i] <= '9'
    ensures |r| > 1 ==> r[0] != '0'
  {
    if n < 10 then [DigitChar(n)]
    else
      var r := NatToString(n / 10) + [DigitChar(n % 10)];
      assert r[0] == NatToString(n / 10)[0];
      r
  }

  /** The number a string of decimal digits denotes. */
  function DecimalValue(s: string): nat
    requires forall i :: 0 <= i < |s| ==> '0' <= s[i] <= '9'
  {
    if s == [] then 0 else 10 * DecimalValue(s[..|s| - 1]) + DigitValue(s[|s| - 1])
  }

  function Pow10(k: nat): (p: nat)
    ensures p >= 1
  {
    if k == 0 then 1 else 10 * Pow10(k - 1)
  }

  /** The rendering denotes the number it renders. */
  lemma {:induction false} NatToStringValue(n: nat)
    ensures DecimalValue(NatToString(n)) == n
  {
    var r := NatToString(n);
    if n < 10 {
      assert "0123456789"[n] as int - '0' as int == n;
    } else {
      NatToStringValue(n / 10);
      assert r[..|r| - 1] == NatToString(n / 10);
      var d := n % 10;
      assert "0123456789"[d] as int - '0' as int == d;
    }
  }

  /** A number with k + 1 digits renders as exactly k + 1 characters. */
  lemma {:induction false} NatToStringLength(n: nat, k: nat)
    requires Pow10(k) <= n < Pow10(k + 1)
    ensures |NatToString(n)| == k + 1
  {
    if k > 0 {
      assert Pow10(k - 1) <= n / 10 < Pow10(k);
      NatToStringLength(n / 10, k - 1);
    } else {
      assert n < 10;
    }
  }
}

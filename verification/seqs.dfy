/** Generic sequence operations: filtering, duplicate removal that keeps first
    occurrences, and splitting/joining strings on a separator. */
module Seqs {

  /** The elements of `s` that satisfy `p`, in their original order. */
  function Filter<T>(s: seq<T>, p: T -> bool): (r: seq<T>)
    ensures |r| <= |s|
    ensures forall x :: x in r ==> x in s && p(x)
    ensures forall x :: x in s && p(x) ==> x in r
  {
    if s == [] then [] else (if p(s[0]) then [s[0]] else []) + Filter(s[1..], p)
  }

  lemma {:induction false} FilterAppend<T>(a: seq<T>, b: seq<T>, p: T -> bool)
    ensures Filter(a + b, p) == Filter(a, p) + Filter(b, p)
  {
    if a == [] {
      assert a + b == b;
    } else {
      assert (a + b)[1..] == a[1..] + b;
      FilterAppend(a[1..], b, p);
    }
  }

  /** Nothing of `s` satisfies `p`: the filter is empty. */
  lemma {:induction false} FilterNone<T>(s: seq<T>, p: T -> bool)
    requires forall k :: 0 <= k < |s| ==> !p(s[k])
    ensures Filter(s, p) == []
  {
    if s != [] {
      FilterNone(s[1..], p);
    }
  }

  /** A filter that every element passes keeps the whole sequence. */
  lemma {:induction false} FilterAll<T>(s: seq<T>, p: T -> bool)
    requires forall k :: 0 <= k < |s| ==> p(s[k])
    ensures Filter(s, p) == s
  {
    if s != [] {
      FilterAll(s[1..], p);
      assert [s[0]] + s[1..] == s;
    }
  }

  /** The concatenation of `f(x)` for each `x` of `s`, in order. */
  function FlatMap<T, U>(s: seq<T>, f: T -> seq<U>): seq<U> {
    if s == [] then [] else f(s[0]) + FlatMap(s[1..], f)
  }

  lemma {:induction false} FlatMapAppend<T, U>(a: seq<T>, b: seq<T>, f: T -> seq<U>)
    ensures FlatMap(a + b, f) == FlatMap(a, f) + FlatMap(b, f)
  {
    if a == [] {
      assert a + b == b;
    } else {
      assert (a + b)[1..] == a[1..] + b;
      FlatMapAppend(a[1..], b, f);
    }
  }

  /** Images of at most one element make a `FlatMap` no longer than its input. */
  lemma {:induction false} FlatMapLength<T, U>(s: seq<T>, f: T -> seq<U>)
    requires forall x :: x in s ==> |f(x)| <= 1
    ensures |FlatMap(s, f)| <= |s|
  {
    if s != [] {
      assert forall x :: x in s[1..] ==> x in s;
      FlatMapLength(s[1..], f);
    }
  }

  /** An element whose image is empty can be dropped from a `FlatMap`. */
  lemma FlatMapSkip<T, U>(a: seq<T>, x: T, b: seq<T>, f: T -> seq<U>)
    requires f(x) == []
    ensures FlatMap(a + [x] + b, f) == FlatMap(a + b, f)
  {
    assert FlatMap([x], f) == f(x) + FlatMap([x][1..], f);
    FlatMapAppend(a + [x], b, f);
    FlatMapAppend(a, [x], f);
    FlatMapAppend(a, b, f);
  }

  /** Every element of a `FlatMap` comes from the image of some element of `s`. */
  lemma {:induction false} FlatMapMember<T, U>(s: seq<T>, f: T -> seq<U>, u: U)
    requires u in FlatMap(s, f)
    ensures exists x :: x in s && u in f(x)
  {
    if u !in f(s[0]) {
      FlatMapMember(s[1..], f, u);
      var x :| x in s[1..] && u in f(x);
      assert x in s;
    }
  }

  /** Filtering each image is filtering the whole concatenation. */
  lemma {:induction false} FlatMapFilter<T, U>(s: seq<T>, f: T -> seq<U>, g: T -> seq<U>, p: U -> bool)
    requires forall x :: x in s ==> g(x) == Filter(f(x), p)
    ensures FlatMap(s, g) == Filter(FlatMap(s, f), p)
  {
    if s != [] {
      assert forall x :: x in s[1..] ==> x in s;
      FlatMapFilter(s[1..], f, g, p);
      FilterAppend(f(s[0]), FlatMap(s[1..], f), p);
    }
  }

  /** The keys of the elements of `s`. */
  function Keys<T, K>(s: seq<T>, key: T -> K): (r: set<K>)
    ensures forall i :: 0 <= i < |s| ==> key(s[i]) in r
    ensures forall k :: k in r ==> exists i :: 0 <= i < |s| && key(s[i]) == k
  {
    if s == [] then {}
    else
      assert forall i :: 0 <= i < |s| - 1 ==> s[1..][i] == s[i + 1];
      {key(s[0])} + Keys(s[1..], key)
  }

  lemma {:induction false} KeysAppend<T, K>(a: seq<T>, b: seq<T>, key: T -> K)
    ensures Keys(a + b, key) == Keys(a, key) + Keys(b, key)
  {
    if a == [] {
      assert a + b == b;
    } else {
      assert (a + b)[0] == a[0] && (a + b)[1..] == a[1..] + b;
      KeysAppend(a[1..], b, key);
    }
  }

  /** No two elements of `s` share a key. */
  predicate DistinctKeys<T, K(==)>(s: seq<T>, key: T -> K) {
    forall i, j :: 0 <= i < j < |s| ==> key(s[i]) != key(s[j])
  }

  /** A filter keeps pairwise distinct keys pairwise distinct. */
  lemma {:induction false} FilterKeepsDistinctKeys<T, K>(s: seq<T>, p: T -> bool, key: T -> K)
    requires DistinctKeys(s, key)
    ensures DistinctKeys(Filter(s, p), key)
  {
    if s != [] {
      var rest := Filter(s[1..], p);
      FilterKeepsDistinctKeys(s[1..], p, key);
      forall x | x in rest ensures key(x) != key(s[0]) {
        var k :| 0 <= k < |s[1..]| && s[1..][k] == x;
        assert s[k + 1] == x;
      }
      if p(s[0]) {
        var r := [s[0]] + rest;
        assert Filter(s, p) == r;
        forall i, j | 0 <= i < j < |r| ensures key(r[i]) != key(r[j]) {
          assert r[j] == rest[j - 1];
          assert rest[j - 1] in rest;
          if i > 0 {
            assert r[i] == rest[i - 1];
          }
        }
      } else {
        assert Filter(s, p) == rest;
      }
    }
  }

  predicate NoDuplicates<T(==)>(s: seq<T>) {
    forall i, j :: 0 <= i < j < |s| ==> s[i] != s[j]
  }

  /** `s` without repeated elements, each kept at its first occurrence. */
  function Dedup<T(==)>(s: seq<T>): (r: seq<T>)
    ensures NoDuplicates(r)
    ensures forall x :: x in r ==> x in s
    ensures forall x :: x in s ==> x in r
    ensures |r| <= |s|
  {
    if s == [] then []
    else
      var d := Dedup(s[..|s| - 1]);
      assert s == s[..|s| - 1] + [s[|s| - 1]];
      if s[|s| - 1] in d then d else d + [s[|s| - 1]]
  }

  /** The elements of `s` whose key is not in `seen` and has not occurred
      earlier in `s`: the first occurrence of every new key wins. */
  function KeepFirstBy<T, K>(s: seq<T>, key: T -> K, seen: set<K>): (r: seq<T>)
    ensures DistinctKeys(r, key)
    ensures forall x :: x in r ==> x in s && key(x) !in seen
  {
    if s == [] then []
    else if key(s[0]) in seen then KeepFirstBy(s[1..], key, seen)
    else
      var rest := KeepFirstBy(s[1..], key, seen + {key(s[0])});
      assert forall x :: x in rest ==> key(x) != key(s[0]);
      [s[0]] + rest
  }

  /** Every key of `s` outside `seen` survives `KeepFirstBy`. */
  lemma {:induction false} KeepFirstByCovers<T, K>(s: seq<T>, key: T -> K, seen: set<K>, x: T)
    requires x in s && key(x) !in seen
    ensures exists y :: y in KeepFirstBy(s, key, seen) && key(y) == key(x)
  {
    if key(s[0]) in seen {
      KeepFirstByCovers(s[1..], key, seen, x);
    } else if key(s[0]) == key(x) {
      assert s[0] in KeepFirstBy(s, key, seen);
    } else {
      KeepFirstByCovers(s[1..], key, seen + {key(s[0])}, x);
    }
  }

  /** The element that `KeepFirstBy` keeps for a key is the first element of
      `s` with that key. */
  lemma {:induction false} KeepFirstByKeepsFirst<T, K>(s: seq<T>, key: T -> K, seen: set<K>, i: nat)
    requires i < |s| && key(s[i]) !in seen
    requires forall m :: 0 <= m < i ==> key(s[m]) != key(s[i])
    ensures s[i] in KeepFirstBy(s, key, seen)
  {
    if i > 0 {
      if key(s[0]) in seen {
        KeepFirstByKeepsFirst(s[1..], key, seen, i - 1);
      } else {
        KeepFirstByKeepsFirst(s[1..], key, seen + {key(s[0])}, i - 1);
      }
    }
  }

  /** `KeepFirstBy` keeps exactly the keys outside `seen`. */
  lemma {:induction false} KeepFirstByKeys<T, K>(s: seq<T>, key: T -> K, seen: set<K>)
    ensures Keys(KeepFirstBy(s, key, seen), key) == Keys(s, key) - seen
  {
    if s != [] {
      if key(s[0]) in seen {
        KeepFirstByKeys(s[1..], key, seen);
      } else {
        KeepFirstByKeys(s[1..], key, seen + {key(s[0])});
        var rest := KeepFirstBy(s[1..], key, seen + {key(s[0])});
        assert KeepFirstBy(s, key, seen) == [s[0]] + rest;
        assert ([s[0]] + rest)[1..] == rest;
      }
    }
  }

  /** A sequence whose keys are already distinct keeps every element. */
  lemma {:induction false} KeepFirstByDistinct<T, K>(s: seq<T>, key: T -> K, seen: set<K>)
    requires DistinctKeys(s, key)
    requires forall k :: 0 <= k < |s| ==> key(s[k]) !in seen
    ensures KeepFirstBy(s, key, seen) == s
  {
    if s != [] {
      assert DistinctKeys(s[1..], key);
      forall k | 0 <= k < |s[1..]| ensures key(s[1..][k]) !in seen + {key(s[0])} {
        assert s[1..][k] == s[k + 1];
      }
      KeepFirstByDistinct(s[1..], key, seen + {key(s[0])});
    }
  }

  /** `parts` joined with `sep` between consecutive elements (Python's `sep.join`). */
  function Join(parts: seq<string>, sep: string): string {
    if |parts| == 0 then ""
    else if |parts| == 1 then parts[0]
    else parts[0] + sep + Join(parts[1..], sep)
  }

  /** The pieces of `s` between occurrences of `sep` (Python's `s.split(sep)`
      for a one-character separator). */
  function Split(s: string, sep: char): (r: seq<string>)
    ensures |r| > 0
    decreases |s|
  {
    if s == [] then [""]
    else
      var rest := Split(s[1..], sep);
      if s[0] == sep then [""] + rest else [[s[0]] + rest[0]] + rest[1..]
  }

  lemma {:induction false} SplitNoSeparator(s: string, sep: char)
    requires sep !in s
    ensures Split(s, sep) == [s]
    decreases |s|
  {
    if s != [] {
      SplitNoSeparator(s[1..], sep);
      assert [s[0]] + s[1..] == s;
    }
  }

  lemma {:induction false} SplitConcat(a: string, b: string, sep: char)
    requires sep !in a
    ensures Split(a + [sep] + b, sep) == [a] + Split(b, sep)
    decreases |a|
  {
    if a == [] {
      assert a + [sep] + b == [sep] + b;
      assert ([sep] + b)[1..] == b;
    } else {
      SplitConcat(a[1..], b, sep);
      assert (a + [sep] + b)[1..] == a[1..] + [sep] + b;
      assert [a[0]] + a[1..] == a;
    }
  }

  /** Splitting at one separator splits the two sides independently. */
  lemma {:induction false} SplitAround(a: string, b: string, sep: char)
    ensures Split(a + [sep] + b, sep) == Split(a, sep) + Split(b, sep)
    decreases |a|
  {
    if sep !in a {
      SplitConcat(a, b, sep);
      SplitNoSeparator(a, sep);
    } else {
      var i := FirstIndex(a, sep);
      var a1, a2 := a[..i], a[i + 1..];
      assert a == a1 + [sep] + a2;
      SplitAround(a2, b, sep);
      SplitAroundAt(a1, a2, b, sep);
    }
  }

  /** The inductive step of `SplitAround`, cutting `a` at its first separator. */
  lemma SplitAroundAt(a1: string, a2: string, b: string, sep: char)
    requires sep !in a1
    requires Split(a2 + [sep] + b, sep) == Split(a2, sep) + Split(b, sep)
    ensures Split(a1 + [sep] + a2 + [sep] + b, sep) == Split(a1 + [sep] + a2, sep) + Split(b, sep)
  {
    assert a1 + [sep] + a2 + [sep] + b == a1 + [sep] + (a2 + [sep] + b);
    SplitConcat(a1, a2 + [sep] + b, sep);
    SplitConcat(a1, a2, sep);
    assert [a1] + (Split(a2, sep) + Split(b, sep)) == [a1] + Split(a2, sep) + Split(b, sep);
  }

  /** The position of the first occurrence of `c` in `s`. */
  function FirstIndex<T(==)>(s: seq<T>, c: T): (i: nat)
    requires c in s
    ensures i < |s| && s[i] == c && c !in s[..i]
  {
    if s[0] == c then 0
    else
      var j := FirstIndex(s[1..], c);
      assert s[..j + 1] == [s[0]] + s[1..][..j];
      j + 1
  }

  /** A blank line between two texts is an empty piece between their lines. */
  lemma SplitBlankLine(a: string, b: string)
    ensures Split(a + "\n\n" + b, '\n') == Split(a, '\n') + [""] + Split(b, '\n')
  {
    assert a + "\n\n" + b == a + ['\n'] + ([] + ['\n'] + b);
    SplitAround(a, [] + ['\n'] + b, '\n');
    SplitConcat([], b, '\n');
  }

  /** A one-line heading followed by a blank line. */
  lemma SplitHeaded(h: string, body: string)
    requires '\n' !in h
    ensures Split(h + "\n\n" + body, '\n') == [h, ""] + Split(body, '\n')
  {
    SplitBlankLine(h, body);
    SplitNoSeparator(h, '\n');
    assert [h] + [""] == [h, ""];
  }

  /** A heading, a blank line, lines joined by line breaks, a blank line and
      a footer. */
  function Framed(h: string, lines: seq<string>, t: string): string {
    h + "\n\n" + (Join(lines, "\n") + "\n\n" + t)
  }

  /** The heading, every line and the footer are single lines, and there is
      at least one line. */
  predicate FrameReady(h: string, lines: seq<string>, t: string) {
    '\n' !in h && '\n' !in t && |lines| > 0 && forall k :: 0 <= k < |lines| ==> '\n' !in lines[k]
  }

  /** Splitting a framed text gives back its heading, lines and footer. */
  lemma SplitFramed(h: string, lines: seq<string>, t: string)
    requires FrameReady(h, lines, t)
    ensures Split(Framed(h, lines, t), '\n') == [h, ""] + lines + ["", t]
  {
    var body := Join(lines, "\n");
    SplitJoin(lines, '\n');
    SplitNoSeparator(t, '\n');
    SplitBlankLine(body, t);
    SplitHeaded(h, body + "\n\n" + t);
    assert [h, ""] + (lines + [""] + [t]) == [h, ""] + lines + ["", t];
  }

  /** Splitting a join on its one-character separator gives the parts back,
      provided no part contains the separator. */
  lemma {:induction false} SplitJoin(parts: seq<string>, sep: char)
    requires |parts| > 0
    requires forall k :: 0 <= k < |parts| ==> sep !in parts[k]
    ensures Split(Join(parts, [sep]), sep) == parts
    decreases |parts|
  {
    if |parts| == 1 {
      SplitNoSeparator(parts[0], sep);
    } else {
      SplitJoin(parts[1..], sep);
      SplitConcat(parts[0], Join(parts[1..], [sep]), sep);
      assert [parts[0]] + parts[1..] == parts;
    }
  }
}

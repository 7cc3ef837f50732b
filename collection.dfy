/**
 * `removeFromCollection(thing, collection)` (veld.js:61-67): a forward index loop
 * that splices out every element identical to `thing`. After a splice at index i
 * the next element slides into position i, but i is still incremented, so that
 * element is never compared: of two adjacent occurrences the second survives.
 */
module Collection {

  /** What the splice loop leaves behind: an element equal to `thing` is dropped
      and the element right after it is kept without being compared. */
  function Spliced<T(==)>(thing: T, s: seq<T>): seq<T>
    decreases |s|
  {
    if s == [] then []
    else if s[0] != thing then [s[0]] + Spliced(thing, s[1..])
    else if |s| == 1 then []
    else [s[1]] + Spliced(thing, s[2..])
  }

  /** The reference filter: every element that is not `thing`, in order. */
  function Without<T(==)>(thing: T, s: seq<T>): seq<T>
  {
    if s == [] then []
    else (if s[0] == thing then [] else [s[0]]) + Without(thing, s[1..])
  }

  /** `r` is obtained from `s` by deleting elements. */
  predicate IsSubsequence<T(==)>(r: seq<T>, s: seq<T>)
    decreases |s|
  {
    if r == [] then true
    else if s == [] then false
    else if r[0] == s[0] then IsSubsequence(r[1..], s[1..])
    else IsSubsequence(r, s[1..])
  }

  /** No two neighbouring elements of `s` are both `thing`. */
  predicate NoAdjacent<T(==)>(thing: T, s: seq<T>)
  {
    forall i :: 0 < i < |s| ==> s[i - 1] != thing || s[i] != thing
  }

  /** The loop of veld.js:62-66, with `collection.splice(i, 1)` as a sequence update. */
  method RemoveFromCollection<T(==)>(thing: T, collection: seq<T>) returns (remaining: seq<T>)
    ensures remaining == Spliced(thing, collection)
  {
    remaining := collection;
    var i := 0;
    ghost var done: seq<T> := [];  // remaining[..i]
    ghost var rest := collection;  // the part of `collection` not yet reached
    while i < |remaining|
      invariant remaining == done + rest
      invariant done + Spliced(thing, rest) == Spliced(thing, collection)
      invariant i == |done| || (i == |done| + 1 && rest == [])
      decreases |remaining| + 1 - i
    {
      assert remaining[i] == rest[0];
      SplicedStep(thing, rest);
      if remaining[i] == thing {
        SpliceAt(done, rest);
        remaining := remaining[..i] + remaining[i + 1..];
        if |rest| > 1 {
          ShiftOne(done, rest[1..]);
          done, rest := done + [rest[1]], rest[2..];
        } else {
          rest := [];
        }
      } else {
        ShiftOne(done, rest);
        done, rest := done + [rest[0]], rest[1..];
      }
      i := i + 1;
    }
  }

  /** `splice(i, 1)` at the first element of `rest`. */
  lemma SpliceAt<T>(done: seq<T>, rest: seq<T>)
    requires rest != []
    ensures (done + rest)[..|done|] + (done + rest)[|done| + 1..] == done + rest[1..]
  {
    assert (done + rest)[..|done|] == done;
    assert (done + rest)[|done| + 1..] == rest[1..];
  }

  /** Moving the first element of `rest` to the end of `done`. */
  lemma ShiftOne<T>(done: seq<T>, rest: seq<T>)
    requires rest != []
    ensures done + rest == (done + [rest[0]]) + rest[1..]
  {
    assert rest == [rest[0]] + rest[1..];
  }

  /** One step of the loop, read off the definition of Spliced. */
  lemma SplicedStep<T>(thing: T, rest: seq<T>)
    requires rest != []
    ensures rest[0] != thing ==> Spliced(thing, rest) == [rest[0]] + Spliced(thing, rest[1..])
    ensures rest[0] == thing && |rest| == 1 ==> Spliced(thing, rest) == []
    ensures rest[0] == thing && |rest| > 1 ==> Spliced(thing, rest) == [rest[1]] + Spliced(thing, rest[2..])
  {
  }

  /** The loop never lengthens the collection, and it shortens it exactly when `thing` occurs. */
  lemma {:induction false} SplicedLength<T>(thing: T, s: seq<T>)
    ensures |Spliced(thing, s)| <= |s|
    ensures |Spliced(thing, s)| == |s| <==> thing !in s
    decreases |s|
  {
    if s != [] {
      if s[0] != thing {
        SplicedLength(thing, s[1..]);
        assert thing in s <==> thing in s[1..] by {
          assert s == [s[0]] + s[1..];
        }
      } else if |s| > 1 {
        SplicedLength(thing, s[2..]);
      }
    }
  }

  /** Removing a thing that is absent leaves the collection unchanged. */
  lemma {:induction false} SplicedAbsent<T>(thing: T, s: seq<T>)
    requires thing !in s
    ensures Spliced(thing, s) == s
  {
    if s != [] {
      assert thing !in s[1..] by {
        forall x | x in s[1..] ensures x in s {
          var j :| 0 <= j < |s[1..]| && s[1..][j] == x;
          assert s[j + 1] == x;
        }
      }
      SplicedAbsent(thing, s[1..]);
    }
  }

  lemma {:induction false} WithoutConcat<T>(thing: T, a: seq<T>, b: seq<T>)
    ensures Without(thing, a + b) == Without(thing, a) + Without(thing, b)
    decreases |a|
  {
    if a != [] {
      assert (a + b)[1..] == a[1..] + b;
      WithoutConcat(thing, a[1..], b);
    } else {
      assert a + b == b;
    }
  }

  /** Every element not identical to `thing` survives, in its original relative order. */
  lemma {:induction false} SplicedKeepsOthers<T>(thing: T, s: seq<T>)
    ensures Without(thing, Spliced(thing, s)) == Without(thing, s)
    decreases |s|
  {
    if s == [] {
    } else if s[0] != thing {
      SplicedKeepsOthers(thing, s[1..]);
      WithoutConcat(thing, [s[0]], Spliced(thing, s[1..]));
    } else if |s| == 1 {
    } else {
      SplicedKeepsOthers(thing, s[2..]);
      WithoutConcat(thing, [s[1]], Spliced(thing, s[2..]));
      assert s[1..][1..] == s[2..];
      WithoutConcat(thing, [s[1]], s[2..]);
      assert s[1..] == [s[1]] + s[2..];
    }
  }

  lemma {:induction false} SubsequenceOfLonger<T>(r: seq<T>, a: T, s: seq<T>)
    requires IsSubsequence(r, s)
    ensures IsSubsequence(r, [a] + s)
    decreases |s|, 1
  {
    assert ([a] + s)[1..] == s;
    if r != [] && r[0] == a {
      SubsequenceDrop(r, s);
    }
  }

  lemma {:induction false} SubsequenceDrop<T>(r: seq<T>, s: seq<T>)
    requires r != [] && IsSubsequence(r, s)
    ensures IsSubsequence(r[1..], s)
    decreases |s|, 0
  {
    assert [s[0]] + s[1..] == s;
    if r[0] != s[0] {
      SubsequenceDrop(r, s[1..]);
    }
    SubsequenceOfLonger(r[1..], s[0], s[1..]);
  }

  /** The loop only deletes: what remains is a subsequence of the input. */
  lemma {:induction false} SplicedIsSubsequence<T>(thing: T, s: seq<T>)
    ensures IsSubsequence(Spliced(thing, s), s)
    decreases |s|
  {
    if s == [] {
    } else if s[0] != thing {
      SplicedIsSubsequence(thing, s[1..]);
      assert ([s[0]] + Spliced(thing, s[1..]))[1..] == Spliced(thing, s[1..]);
    } else if |s| == 1 {
    } else {
      var r := [s[1]] + Spliced(thing, s[2..]);
      SplicedIsSubsequence(thing, s[2..]);
      assert r[1..] == Spliced(thing, s[2..]);
      assert s[1..] == [s[1]] + s[2..];
      assert s[1..][1..] == s[2..];
      assert IsSubsequence(r, s[1..]);
      if r[0] == s[0] {
        SubsequenceDrop(r, s[1..]);
      }
    }
  }

  lemma {:induction false} WithoutExcludes<T>(thing: T, s: seq<T>)
    ensures thing !in Without(thing, s)
  {
    if s != [] {
      WithoutExcludes(thing, s[1..]);
    }
  }

  /** If no two occurrences of `thing` are adjacent, every occurrence is removed. */
  lemma {:induction false} NoAdjacentRemovesAll<T>(thing: T, s: seq<T>)
    requires NoAdjacent(thing, s)
    ensures Spliced(thing, s) == Without(thing, s)
    ensures thing !in Spliced(thing, s)
    decreases |s|
  {
    WithoutExcludes(thing, s);
    if s == [] {
    } else if s[0] != thing {
      assert NoAdjacent(thing, s[1..]) by {
        forall i | 0 < i < |s[1..]| ensures s[1..][i - 1] != thing || s[1..][i] != thing {
          assert s[1..][i - 1] == s[i] && s[1..][i] == s[i + 1];
        }
      }
      NoAdjacentRemovesAll(thing, s[1..]);
    } else if |s| == 1 {
    } else {
      assert s[1] != thing;
      assert NoAdjacent(thing, s[2..]) by {
        forall i | 0 < i < |s[2..]| ensures s[2..][i - 1] != thing || s[2..][i] != thing {
          assert s[2..][i - 1] == s[i + 1] && s[2..][i] == s[i + 2];
        }
      }
      NoAdjacentRemovesAll(thing, s[2..]);
      assert s[1..] == [s[1]] + s[2..];
      WithoutConcat(thing, [s[1]], s[2..]);
    }
  }

  lemma SplicedKeep<T>(thing: T, x: T, r: seq<T>)
    requires x != thing
    ensures Spliced(thing, [x] + r) == [x] + Spliced(thing, r)
  {
  }

  lemma SplicedDrop<T>(thing: T, y: T, r: seq<T>)
    ensures Spliced(thing, [thing, y] + r) == [y] + Spliced(thing, r)
  {
  }

  /** Splitting after an element that is not `thing` splits the result the same way. */
  lemma {:induction false} SplicedConcat<T>(thing: T, p: seq<T>, q: seq<T>)
    requires p == [] || p[|p| - 1] != thing
    ensures Spliced(thing, p + q) == Spliced(thing, p) + Spliced(thing, q)
    decreases |p|, 1
  {
    if p == [] {
      assert p + q == q;
    } else if p[0] != thing {
      SplicedConcatKeep(thing, p, q);
    } else {
      SplicedConcatDrop(thing, p, q);
    }
  }

  lemma {:induction false} SplicedConcatKeep<T>(thing: T, p: seq<T>, q: seq<T>)
    requires p != [] && p[0] != thing && p[|p| - 1] != thing
    ensures Spliced(thing, p + q) == Spliced(thing, p) + Spliced(thing, q)
    decreases |p|, 0
  {
    var p' := p[1..];
    assert p == [p[0]] + p';
    assert p + q == [p[0]] + (p' + q);
    SplicedKeep(thing, p[0], p' + q);
    SplicedKeep(thing, p[0], p');
    SplicedConcat(thing, p', q);
  }

  lemma {:induction false} SplicedConcatDrop<T>(thing: T, p: seq<T>, q: seq<T>)
    requires |p| >= 2 && p[0] == thing && p[|p| - 1] != thing
    ensures Spliced(thing, p + q) == Spliced(thing, p) + Spliced(thing, q)
    decreases |p|, 0
  {
    var p' := p[2..];
    assert p == [thing, p[1]] + p';
    assert p + q == [thing, p[1]] + (p' + q);
    SplicedDrop(thing, p[1], p' + q);
    SplicedDrop(thing, p[1], p');
    SplicedConcat(thing, p', q);
  }

  /** Of two adjacent occurrences reached by the loop, the second is skipped and remains. */
  lemma {:induction false} SkipsAdjacent<T>(thing: T, p: seq<T>, q: seq<T>)
    requires p == [] || p[|p| - 1] != thing
    ensures Spliced(thing, p + [thing, thing] + q) == Spliced(thing, p) + [thing] + Spliced(thing, q)
    ensures thing in Spliced(thing, p + [thing, thing] + q)
  {
    assert p + [thing, thing] + q == p + ([thing, thing] + q);
    SplicedConcat(thing, p, [thing, thing] + q);
    assert ([thing, thing] + q)[2..] == q;
    var r := Spliced(thing, p) + [thing] + Spliced(thing, q);
    assert r[|Spliced(thing, p)|] == thing;
  }
}

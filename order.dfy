/** The order in which symbols are displayed: Go compares strings byte by byte in
    their UTF-8 encoding, which orders them exactly as comparing code points one by
    one does; a proper prefix comes first. */
module Order {

  /** Strict lexicographic order on strings by code point. */
  predicate Less(a: string, b: string)
    decreases |a|
  {
    if |a| == 0 then |b| > 0
    else if |b| == 0 then false
    else a[0] < b[0] || (a[0] == b[0] && Less(a[1..], b[1..]))
  }

  lemma {:induction false} LessIrreflexive(a: string)
    ensures !Less(a, a)
    decreases |a|
  {
    if |a| > 0 {
      LessIrreflexive(a[1..]);
    }
  }

  lemma {:induction false} LessAsymmetric(a: string, b: string)
    requires Less(a, b)
    ensures !Less(b, a)
    decreases |a|
  {
    if |a| > 0 && a[0] == b[0] {
      LessAsymmetric(a[1..], b[1..]);
    }
  }

  lemma {:induction false} LessTransitive(a: string, b: string, c: string)
    requires Less(a, b) && Less(b, c)
    ensures Less(a, c)
    decreases |a|
  {
    if |a| > 0 && a[0] == b[0] && b[0] == c[0] {
      LessTransitive(a[1..], b[1..], c[1..]);
    }
  }

  /** Any two distinct strings are ordered one way or the other. */
  lemma {:induction false} LessTotal(a: string, b: string)
    requires a != b
    ensures Less(a, b) || Less(b, a)
    decreases |a|
  {
    if |a| > 0 && |b| > 0 && a[0] == b[0] {
      assert a == [a[0]] + a[1..] && b == [b[0]] + b[1..];
      LessTotal(a[1..], b[1..]);
    }
  }

  /** Strictly ascending: sorted and free of duplicates. */
  predicate Ascending(s: seq<string>)
  {
    forall i, j :: 0 <= i < j < |s| ==> Less(s[i], s[j])
  }

  lemma Prepend(h: string, s: seq<string>)
    requires Ascending(s)
    requires forall i :: 0 <= i < |s| ==> Less(h, s[i])
    ensures Ascending([h] + s)
  {
  }

  /** Inserts a new key into an ascending sequence at its place. */
  function Insert(s: seq<string>, k: string): (r: seq<string>)
    requires Ascending(s) && k !in s
    ensures |r| == |s| + 1
    ensures forall x :: x in r <==> x in s || x == k
    ensures Ascending(r)
    decreases |s|
  {
    if |s| == 0 then [k]
    else if Less(k, s[0]) then
      assert forall i :: 0 <= i < |s| ==> Less(k, s[i]) by {
        forall i | 0 < i < |s| ensures Less(k, s[i]) {
          LessTransitive(k, s[0], s[i]);
        }
      }
      Prepend(k, s);
      [k] + s
    else
      LessTotal(k, s[0]);
      var t := Insert(s[1..], k);
      assert forall i :: 0 <= i < |t| ==> Less(s[0], t[i]) by {
        forall i | 0 <= i < |t| ensures Less(s[0], t[i]) {
          if t[i] != k {
            assert t[i] in s[1..];
            var j :| 0 <= j < |s[1..]| && s[1..][j] == t[i];
            assert s[j + 1] == t[i];
          }
        }
      }
      Prepend(s[0], t);
      assert s == [s[0]] + s[1..];
      [s[0]] + t
  }

  /** The keys of a set in ascending order. */
  ghost function SortedKeys(keys: set<string>): (r: seq<string>)
    ensures Ascending(r)
    ensures |r| == |keys|
    ensures forall x :: x in r <==> x in keys
    decreases keys
  {
    if keys == {} then []
    else
      var k :| k in keys;
      Insert(SortedKeys(keys - {k}), k)
  }

  /** An ascending sequence is determined by the strings it contains. */
  lemma {:induction false} AscendingUnique(a: seq<string>, b: seq<string>)
    requires Ascending(a) && Ascending(b)
    requires forall x :: x in a <==> x in b
    ensures a == b
    decreases |a|
  {
    if |a| > 0 {
      assert a[0] in a;
    }
    if |b| > 0 {
      assert b[0] in b;
    }
    if |a| > 0 && |b| > 0 {
      if a[0] != b[0] {
        assert a[0] in b;
        var j :| 0 <= j < |b| && b[j] == a[0];
        assert b[0] in a;
        var i :| 0 <= i < |a| && a[i] == b[0];
        LessAsymmetric(a[0], b[0]);
        assert false;
      }
      forall x ensures x in a[1..] <==> x in b[1..] {
        if x in a[1..] {
          var i :| 0 <= i < |a[1..]| && a[1..][i] == x;
          assert Less(a[0], a[i + 1]);
          LessIrreflexive(x);
          assert x in b && x != b[0];
          var j :| 0 <= j < |b| && b[j] == x;
          assert b[1..][j - 1] == x;
        }
        if x in b[1..] {
          var j :| 0 <= j < |b[1..]| && b[1..][j] == x;
          assert Less(b[0], b[j + 1]);
          LessIrreflexive(x);
          assert x in a && x != a[0];
          var i :| 0 <= i < |a| && a[i] == x;
          assert a[1..][i - 1] == x;
        }
      }
      AscendingUnique(a[1..], b[1..]);
      assert a == [a[0]] + a[1..] && b == [b[0]] + b[1..];
    }
  }
}

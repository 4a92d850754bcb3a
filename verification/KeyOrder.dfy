/** The key order of an ordered map over strings, and the order in which such a map is iterated. */
module KeyOrder {

  predicate KeyLe(a: string, b: string) {
    a == "" || (b != "" && (a[0] < b[0] || (a[0] == b[0] && KeyLe(a[1..], b[1..]))))
  }

  lemma {:induction false} KeyLeTotal(a: string, b: string)
    ensures KeyLe(a, b) || KeyLe(b, a)
    decreases |a|
  {
    if a != "" && b != "" {
      KeyLeTotal(a[1..], b[1..]);
    }
  }

  lemma {:induction false} KeyLeTransitive(a: string, b: string, c: string)
    requires KeyLe(a, b) && KeyLe(b, c)
    ensures KeyLe(a, c)
    decreases |a|
  {
    if a != "" && a[0] == b[0] == c[0] {
      KeyLeTransitive(a[1..], b[1..], c[1..]);
    }
  }

  lemma {:induction false} KeyLeAntisymmetric(a: string, b: string)
    requires KeyLe(a, b) && KeyLe(b, a)
    ensures a == b
    decreases |a|
  {
    if a != "" {
      KeyLeAntisymmetric(a[1..], b[1..]);
      assert a == [a[0]] + a[1..] && b == [b[0]] + b[1..];
    }
  }

  predicate IsFirst(k: string, keys: set<string>) {
    k in keys && forall other :: other in keys ==> KeyLe(k, other)
  }

  lemma {:induction false} FirstExists(keys: set<string>)
    requires keys != {}
    ensures exists k :: IsFirst(k, keys)
    decreases keys
  {
    var k :| k in keys;
    var rest := keys - {k};
    KeyLeTotal(k, k);
    if rest == {} {
      assert keys == {k};
      assert IsFirst(k, keys);
    } else {
      FirstExists(rest);
      var f :| IsFirst(f, rest);
      KeyLeTotal(k, f);
      if KeyLe(f, k) {
        assert IsFirst(f, keys);
      } else {
        forall other | other in keys
          ensures KeyLe(k, other)
        {
          if other != k {
            KeyLeTransitive(k, f, other);
          }
        }
        assert IsFirst(k, keys);
      }
    }
  }

  function FirstKey(keys: set<string>): (k: string)
    requires keys != {}
    ensures IsFirst(k, keys)
  {
    FirstExists(keys);
    FirstUnique(keys);
    var k :| k in keys && IsFirst(k, keys);
    k
  }

  lemma FirstUnique(keys: set<string>)
    ensures forall j, k :: IsFirst(j, keys) && IsFirst(k, keys) ==> j == k
  {
    forall j, k | IsFirst(j, keys) && IsFirst(k, keys)
      ensures j == k
    {
      KeyLeAntisymmetric(j, k);
    }
  }

  /** The keys in iteration order. */
  function SortedKeys(keys: set<string>): seq<string> {
    if keys == {} then [] else
      var k := FirstKey(keys);
      [k] + SortedKeys(keys - {k})
  }

  ghost predicate Distinct<T>(s: seq<T>) {
    forall i, j :: 0 <= i < j < |s| ==> s[i] != s[j]
  }

  lemma {:induction false} SortedKeysExact(keys: set<string>)
    ensures forall k :: k in SortedKeys(keys) <==> k in keys
    ensures Distinct(SortedKeys(keys))
    decreases keys
  {
    if keys != {} {
      var k := FirstKey(keys);
      SortedKeysExact(keys - {k});
      var rest := SortedKeys(keys - {k});
      assert k !in rest;
      forall i | 0 <= i < |rest|
        ensures rest[i] != k
      {
        assert rest[i] in rest;
      }
    }
  }

  /** One key is below another if it is a prefix of it, or has the smaller character where they first
      differ. */
  ghost predicate Below(a: string, b: string, i: nat) {
    && i <= |a| && i < |b| && a[..i] == b[..i]
    && (i == |a| || a[i] < b[i])
  }

  lemma {:induction false} KeyLeMeans(a: string, b: string)
    ensures KeyLe(a, b) <==> a == b || exists i: nat :: Below(a, b, i)
    decreases |a|
  {
    if a == "" {
      if b != "" {
        assert Below(a, b, 0);
      }
    } else if b != "" {
      KeyLeMeans(a[1..], b[1..]);
      assert a == [a[0]] + a[1..] && b == [b[0]] + b[1..];
      forall i: nat | Below(a, b, i) && i > 0 ensures a[0] == b[0] {
        assert a[..i][0] == b[..i][0];
      }
      if a[0] < b[0] {
        assert Below(a, b, 0);
      } else if a[0] == b[0] {
        if i: nat :| Below(a[1..], b[1..], i) {
          assert a[..i + 1] == [a[0]] + a[1..][..i] && b[..i + 1] == [b[0]] + b[1..][..i];
          assert Below(a, b, i + 1);
        }
        if i: nat :| Below(a, b, i) {
          assert i > 0 && a[1..][..i - 1] == a[..i][1..] && b[1..][..i - 1] == b[..i][1..];
          assert Below(a[1..], b[1..], i - 1);
        }
      }
    }
  }

  /** Iteration goes upwards. */
  lemma {:induction false} KeysAscend(keys: set<string>)
    ensures forall i, j :: 0 <= i < j < |SortedKeys(keys)| ==> KeyLe(SortedKeys(keys)[i], SortedKeys(keys)[j])
    decreases keys
  {
    if keys != {} {
      var k := FirstKey(keys);
      var rest := SortedKeys(keys - {k});
      KeysAscend(keys - {k});
      SortedKeysExact(keys - {k});
      forall j | 0 <= j < |rest| ensures KeyLe(k, rest[j]) {
        assert rest[j] in rest;
      }
      assert SortedKeys(keys) == [k] + rest;
    }
  }
}

/** The order of group keys: lists of texts compared as Python compares tuples of strings, and sorting them. */
module KeyOrder {

  type Key = seq<string>

  predicate TextLess(a: string, b: string) {
    b != [] && (a == [] || a[0] < b[0] || (a[0] == b[0] && TextLess(a[1..], b[1..])))
  }

  predicate KeyLess(a: Key, b: Key) {
    b != [] && (a == [] || TextLess(a[0], b[0]) || (a[0] == b[0] && KeyLess(a[1..], b[1..])))
  }

  /** `a` and `b` agree before `k`, and there `a` ends or has the smaller character. */
  predicate TextDiffers(a: string, b: string, k: nat) {
    k <= |a| && k < |b| && a[..k] == b[..k] && (k == |a| || a[k] < b[k])
  }

  /** Texts are compared at their first difference, and an initial part comes first. */
  lemma {:induction false} TextLessMeaning(a: string, b: string)
    ensures TextLess(a, b) <==> exists k: nat :: TextDiffers(a, b, k)
  {
    if a == [] || b == [] {
      assert b != [] ==> TextDiffers(a, b, 0);
    } else {
      TextLessMeaning(a[1..], b[1..]);
      assert a[0] < b[0] ==> TextDiffers(a, b, 0);
      assert forall k: nat :: TextDiffers(a[1..], b[1..], k) && a[0] == b[0] ==> TextDiffers(a, b, k + 1) by {
        forall k: nat | TextDiffers(a[1..], b[1..], k) && a[0] == b[0] ensures TextDiffers(a, b, k + 1) {
          assert a[..k + 1] == [a[0]] + a[1..][..k] && b[..k + 1] == [b[0]] + b[1..][..k];
        }
      }
      forall k: nat | k > 0 && TextDiffers(a, b, k) ensures a[0] == b[0] && TextDiffers(a[1..], b[1..], k - 1) {
        assert a[0] == a[..k][0] && b[0] == b[..k][0];
        assert a[1..][..k - 1] == a[..k][1..] && b[1..][..k - 1] == b[..k][1..];
      }
    }
  }

  /** The same of keys, whose texts are compared as texts. */
  predicate KeyDiffers(a: Key, b: Key, k: nat) {
    k <= |a| && k < |b| && a[..k] == b[..k] && (k == |a| || TextLess(a[k], b[k]))
  }

  lemma {:induction false} KeyLessMeaning(a: Key, b: Key)
    ensures KeyLess(a, b) <==> exists k: nat :: KeyDiffers(a, b, k)
  {
    hide TextLess;
    if a == [] || b == [] {
      assert b != [] ==> KeyDiffers(a, b, 0);
    } else {
      KeyLessMeaning(a[1..], b[1..]);
      assert TextLess(a[0], b[0]) ==> KeyDiffers(a, b, 0);
      assert forall k: nat :: KeyDiffers(a[1..], b[1..], k) && a[0] == b[0] ==> KeyDiffers(a, b, k + 1) by {
        forall k: nat | KeyDiffers(a[1..], b[1..], k) && a[0] == b[0] ensures KeyDiffers(a, b, k + 1) {
          assert a[..k + 1] == [a[0]] + a[1..][..k] && b[..k + 1] == [b[0]] + b[1..][..k];
        }
      }
      forall k: nat | k > 0 && KeyDiffers(a, b, k) ensures a[0] == b[0] && KeyDiffers(a[1..], b[1..], k - 1) {
        assert a[0] == a[..k][0] && b[0] == b[..k][0];
        assert a[1..][..k - 1] == a[..k][1..] && b[1..][..k - 1] == b[..k][1..];
      }
    }
  }

  lemma {:induction false} TextTrichotomy(a: string, b: string)
    ensures a == b || TextLess(a, b) || TextLess(b, a)
    ensures !(TextLess(a, b) && TextLess(b, a)) && (a == b ==> !TextLess(a, b))
  {
    if a == [] || b == [] {
    } else {
      TextTrichotomy(a[1..], b[1..]);
      assert a == [a[0]] + a[1..] && b == [b[0]] + b[1..];
    }
  }

  lemma {:induction false} TextTransitive(a: string, b: string, c: string)
    requires TextLess(a, b) && TextLess(b, c)
    ensures TextLess(a, c)
  {
    if a != [] && a[0] == b[0] && b[0] == c[0] {
      TextTransitive(a[1..], b[1..], c[1..]);
    }
  }

  lemma {:induction false} KeyTrichotomy(a: Key, b: Key)
    ensures a == b || KeyLess(a, b) || KeyLess(b, a)
    ensures !(KeyLess(a, b) && KeyLess(b, a)) && (a == b ==> !KeyLess(a, b))
  {
    hide TextLess;
    if a != [] && b != [] {
      TextTrichotomy(a[0], b[0]);
      KeyTrichotomy(a[1..], b[1..]);
      assert a == [a[0]] + a[1..] && b == [b[0]] + b[1..];
    } else if a == [] && b != [] {
      assert KeyLess(a, b);
    }
  }

  lemma {:induction false} KeyTransitive(a: Key, b: Key, c: Key)
    requires KeyLess(a, b) && KeyLess(b, c)
    ensures KeyLess(a, c)
  {
    hide TextLess;
    if a == [] {
    } else {
      if a[0] == b[0] && b[0] == c[0] {
        TextTrichotomy(a[0], b[0]);
        KeyTransitive(a[1..], b[1..], c[1..]);
      } else if TextLess(a[0], b[0]) && TextLess(b[0], c[0]) {
        TextTransitive(a[0], b[0], c[0]);
      }
    }
  }

  predicate Ascending(keys: seq<Key>) {
    forall i, j :: 0 <= i < j < |keys| ==> KeyLess(keys[i], keys[j])
  }

  lemma AscendingIsDistinct(keys: seq<Key>)
    requires Ascending(keys)
    ensures forall i, j :: 0 <= i < j < |keys| ==> keys[i] != keys[j]
  {
    hide KeyLess;
    forall i, j | 0 <= i < j < |keys| ensures keys[i] != keys[j] {
      KeyTrichotomy(keys[i], keys[j]);
    }
  }

  lemma AscendingTail(keys: seq<Key>)
    requires Ascending(keys) && keys != []
    ensures Ascending(keys[1..])
    ensures forall key :: key in keys[1..] <==> key in keys && key != keys[0]
    ensures forall key :: key in keys[1..] ==> KeyLess(keys[0], key)
  {
    AscendingIsDistinct(keys);
    hide KeyLess;
    assert keys == [keys[0]] + keys[1..];
  }

  function FirstOf(keys: seq<Key>): Key {
    if keys == [] then [] else keys[0]
  }

  /** A set of keys has only one ascending listing. */
  lemma {:induction false} AscendingUnique(a: seq<Key>, b: seq<Key>)
    requires Ascending(a) && Ascending(b) && forall key :: key in a <==> key in b
    ensures a == b
  {
    if a == [] {
      assert b != [] ==> FirstOf(b) in b;
    } else {
      assert a[0] in b && b != [] && b[0] in a;
      AscendingTail(a);
      AscendingTail(b);
      KeyTrichotomy(a[0], b[0]);
      hide KeyLess, Ascending;
      AscendingUnique(a[1..], b[1..]);
      assert a == [a[0]] + a[1..] && b == [b[0]] + b[1..];
    }
  }

  function InsertKey(keys: seq<Key>, key: Key): seq<Key> {
    if keys == [] then [key]
    else if KeyLess(key, keys[0]) then [key] + keys
    else [keys[0]] + InsertKey(keys[1..], key)
  }

  lemma AscendingCons(key: Key, keys: seq<Key>)
    requires Ascending(keys) && forall k :: k in keys ==> KeyLess(key, k)
    ensures Ascending([key] + keys)
  {
    hide KeyLess;
  }

  lemma BelowFirstBelowAll(key: Key, keys: seq<Key>)
    requires Ascending(keys) && keys != [] && KeyLess(key, keys[0])
    ensures forall k :: k in keys ==> KeyLess(key, k)
  {
    AscendingTail(keys);
    hide KeyLess, Ascending;
    forall k | k in keys ensures KeyLess(key, k) {
      if k != keys[0] {
        KeyTransitive(key, keys[0], k);
      }
    }
  }

  lemma {:induction false} InsertKeepsAscending(keys: seq<Key>, key: Key)
    requires Ascending(keys) && key !in keys
    ensures Ascending(InsertKey(keys, key))
    ensures forall k :: k in InsertKey(keys, key) <==> k in keys || k == key
  {
    if keys == [] {
    } else if KeyLess(key, keys[0]) {
      BelowFirstBelowAll(key, keys);
      AscendingCons(key, keys);
    } else {
      AscendingTail(keys);
      KeyTrichotomy(key, keys[0]);
      assert keys == [keys[0]] + keys[1..];
      hide KeyLess, Ascending;
      InsertKeepsAscending(keys[1..], key);
      AscendingCons(keys[0], InsertKey(keys[1..], key));
    }
  }

  /** `sorted` on the keys of a dictionary. */
  method SortKeys(keys: set<Key>) returns (r: seq<Key>)
    ensures Ascending(r) && forall key :: key in r <==> key in keys
  {
    hide Ascending, InsertKey;
    r := [];
    NoKeysAscend();
    var pending := keys;
    while pending != {}
      invariant pending <= keys && Ascending(r) && forall key :: key in r <==> key in keys - pending
      decreases |pending|
    {
      var key :| key in pending;
      InsertKeepsAscending(r, key);
      r := InsertKey(r, key);
      pending := pending - {key};
    }
  }

  lemma NoKeysAscend()
    ensures Ascending([])
  {
  }
}

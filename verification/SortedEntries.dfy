/** The reference for the AVL tree: a list of entries in strictly ascending key order,
    and a dictionary defined by the history of operations alone. */
module SortedEntries {
  import opened Collections
  import opened Order
  import opened AvlShape

  datatype Entry = Entry(key: Ptr, value: Ptr)
  type Cmp = (Ptr, Ptr) -> int

  predicate Sorted(cmp: Cmp, es: seq<Entry>) {
    forall i, j :: 0 <= i < j < |es| ==> cmp(es[i].key, es[j].key) < 0
  }

  function Get(cmp: Cmp, es: seq<Entry>, key: Ptr): Option<Ptr> {
    if es == [] then None
    else if cmp(key, es[0].key) == 0 then Some(es[0].value)
    else Get(cmp, es[1..], key)
  }

  /** A present key wins over a new entry. */
  function Put(cmp: Cmp, es: seq<Entry>, e: Entry): seq<Entry> {
    if es == [] then [e]
    else if cmp(e.key, es[0].key) == 0 then es
    else if cmp(e.key, es[0].key) < 0 then [e] + es
    else [es[0]] + Put(cmp, es[1..], e)
  }

  function Delete(cmp: Cmp, es: seq<Entry>, key: Ptr): seq<Entry> {
    if es == [] then []
    else if cmp(key, es[0].key) == 0 then es[1..]
    else [es[0]] + Delete(cmp, es[1..], key)
  }

  /** A search for `key` may go on in `es[lo..hi]`. */
  predicate Between(cmp: Cmp, es: seq<Entry>, key: Ptr, lo: nat, hi: nat) {
    && lo <= hi <= |es|
    && (forall i :: 0 <= i < lo ==> cmp(es[i].key, key) < 0)
    && (forall i :: hi <= i < |es| ==> cmp(key, es[i].key) < 0)
  }

  lemma NarrowLeft(cmp: Cmp, es: seq<Entry>, key: Ptr, lo: nat, m: nat, hi: nat)
    requires Lawful(cmp) && Sorted(cmp, es) && Between(cmp, es, key, lo, hi) && lo <= m < hi && cmp(key, es[m].key) < 0
    ensures Between(cmp, es, key, lo, m)
  {
    forall i | m <= i < |es| ensures cmp(key, es[i].key) < 0 {
      if m < i {
        LessTrans(cmp, key, es[m].key, es[i].key);
      }
    }
  }

  lemma NarrowRight(cmp: Cmp, es: seq<Entry>, key: Ptr, lo: nat, m: nat, hi: nat)
    requires Lawful(cmp) && Sorted(cmp, es) && Between(cmp, es, key, lo, hi) && lo <= m < hi && cmp(key, es[m].key) > 0
    ensures Between(cmp, es, key, m + 1, hi)
  {
    forall i | 0 <= i <= m ensures cmp(es[i].key, key) < 0 {
      assert cmp(es[m].key, key) < 0;
      if i < m {
        LessTrans(cmp, es[i].key, es[m].key, key);
      }
    }
  }

  lemma {:induction false} AbsentAt(cmp: Cmp, es: seq<Entry>, key: Ptr, k: nat)
    requires Lawful(cmp) && Between(cmp, es, key, k, k)
    ensures Get(cmp, es, key) == None && Delete(cmp, es, key) == es
  {
    hide Lawful;
    if es != [] {
      Flip(cmp, es[0].key, key);
      AbsentAt(cmp, es[1..], key, if k == 0 then 0 else k - 1);
    }
  }

  /** The first entry against a key that belongs at place `k`. */
  lemma BetweenFirst(cmp: Cmp, es: seq<Entry>, key: Ptr, k: nat)
    requires Lawful(cmp) && Between(cmp, es, key, k, k)
    ensures k <= |es| && (k == 0 && es != [] ==> cmp(key, es[0].key) < 0)
    ensures k > 0 ==> cmp(key, es[0].key) > 0 && Between(cmp, es[1..], key, k - 1, k - 1)
  {
    hide Lawful;
    if k > 0 {
      Flip(cmp, es[0].key, key);
    }
  }

  /** An element put into the tail is put one place further on into the whole. */
  lemma Behind<T>(s: seq<T>, k: nat, x: T)
    requires 0 < k <= |s|
    ensures [s[0]] + (s[1..][..k - 1] + [x] + s[1..][k - 1..]) == s[..k] + [x] + s[k..]
  {
    assert s[..k] == [s[0]] + s[1..][..k - 1];
    assert s[k..] == s[1..][k - 1..];
  }

  lemma PutFirst(cmp: Cmp, es: seq<Entry>, e: Entry)
    ensures es == [] || cmp(e.key, es[0].key) < 0 ==> Put(cmp, es, e) == [e] + es
    ensures es != [] && cmp(e.key, es[0].key) > 0 ==> Put(cmp, es, e) == [es[0]] + Put(cmp, es[1..], e)
  {
  }

  /** A search that narrows to nothing shows that the key is absent and where it belongs. */
  lemma {:induction false} PutAt(cmp: Cmp, es: seq<Entry>, e: Entry, k: nat)
    requires Lawful(cmp) && Between(cmp, es, e.key, k, k)
    ensures Get(cmp, es, e.key) == None && Put(cmp, es, e) == es[..k] + [e] + es[k..]
  {
    hide Lawful, Get, Between, Put;
    AbsentAt(cmp, es, e.key, k);
    BetweenFirst(cmp, es, e.key, k);
    PutFirst(cmp, es, e);
    if k == 0 {
      assert es[..k] + [e] + es[k..] == [e] + es;
    } else {
      PutAt(cmp, es[1..], e, k - 1);
      Behind(es, k, e);
    }
  }

  /** Everything before a hit has a smaller key. */
  lemma BeforeHit(cmp: Cmp, es: seq<Entry>, key: Ptr, k: nat)
    requires Lawful(cmp) && Sorted(cmp, es) && 0 < k < |es| && cmp(key, es[k].key) == 0
    ensures cmp(key, es[0].key) > 0 && Sorted(cmp, es[1..])
  {
    hide Lawful;
    Flip(cmp, es[0].key, es[k].key);
    SameKey(cmp, key, es[k].key, es[0].key);
  }

  /** A search that hits shows the value and what the other operations do. */
  lemma {:induction false} HitAt(cmp: Cmp, es: seq<Entry>, e: Entry, k: nat)
    requires Lawful(cmp) && Sorted(cmp, es) && k < |es| && cmp(e.key, es[k].key) == 0
    ensures Get(cmp, es, e.key) == Some(es[k].value) && Put(cmp, es, e) == es
    ensures Delete(cmp, es, e.key) == es[..k] + es[k + 1..]
  {
    hide Lawful, Sorted;
    if k > 0 {
      BeforeHit(cmp, es, e.key, k);
      HitAt(cmp, es[1..], e, k - 1);
      assert es[..k] == [es[0]] + es[1..][..k - 1] && es[k + 1..] == es[1..][k..];
    }
  }

  lemma {:induction false} GetIsPresence(cmp: Cmp, es: seq<Entry>, key: Ptr)
    ensures Get(cmp, es, key).Some? <==> exists i :: 0 <= i < |es| && cmp(key, es[i].key) == 0
  {
    if es != [] {
      GetIsPresence(cmp, es[1..], key);
      assert forall i :: 0 < i < |es| ==> es[i] == es[1..][i - 1];
      assert forall i :: 0 <= i < |es| - 1 ==> es[1..][i] == es[i + 1];
    }
  }

  lemma {:induction false} PutLaws(cmp: Cmp, es: seq<Entry>, e: Entry, key: Ptr)
    requires Lawful(cmp) && Sorted(cmp, es)
    ensures Sorted(cmp, Put(cmp, es, e))
    ensures Get(cmp, Put(cmp, es, e), key) ==
            if cmp(key, e.key) == 0 && Get(cmp, es, e.key) == None then Some(e.value) else Get(cmp, es, key)
  {
    hide Lawful, Get, Put;
    var k := Place(cmp, es, e.key);
    if k < |es| && cmp(e.key, es[k].key) == 0 {
      HitAt(cmp, es, e, k);
    } else {
      PutAt(cmp, es, e, k);
      var es' := es[..k] + [e] + es[k..];
      forall i, j | 0 <= i < j < |es'| ensures cmp(es'[i].key, es'[j].key) < 0 {
        if i == k { assert es'[j] == es[j - 1]; } else if j == k { assert es'[i] == es[i]; }
      }
      GetSplit(cmp, es[..k] + [e], es[k..], key);
      GetSplit(cmp, es[..k], [e], key);
      GetOne(cmp, e, key);
      GetSplit(cmp, es[..k], es[k..], key);
      assert es == es[..k] + es[k..];
      if cmp(key, e.key) == 0 {
        GetSame(cmp, es, key, e.key);
      }
    }
  }

  lemma {:induction false} GetSplit(cmp: Cmp, a: seq<Entry>, b: seq<Entry>, key: Ptr)
    ensures Get(cmp, a + b, key) == if Get(cmp, a, key).Some? then Get(cmp, a, key) else Get(cmp, b, key)
  {
    if a == [] {
      assert a + b == b;
    } else {
      GetSplit(cmp, a[1..], b, key);
      assert (a + b)[1..] == a[1..] + b;
    }
  }

  lemma {:induction false} GetSame(cmp: Cmp, es: seq<Entry>, a: Ptr, b: Ptr)
    requires Lawful(cmp) && cmp(a, b) == 0
    ensures Get(cmp, es, a) == Get(cmp, es, b)
  {
    if es != [] {
      SameKey(cmp, a, b, es[0].key);
      GetSame(cmp, es[1..], a, b);
    }
  }

  /** Where a key is or belongs. */
  lemma {:induction false} Place(cmp: Cmp, es: seq<Entry>, key: Ptr) returns (k: nat)
    requires Lawful(cmp) && Sorted(cmp, es)
    ensures k <= |es| && ((k < |es| && cmp(key, es[k].key) == 0) || Between(cmp, es, key, k, k))
  {
    k := 0;
    while k < |es| && cmp(key, es[k].key) > 0
      invariant k <= |es| && forall i :: 0 <= i < k ==> cmp(es[i].key, key) < 0
    {
      k := k + 1;
    }
    if k < |es| && cmp(key, es[k].key) < 0 {
      forall i | k <= i < |es| ensures cmp(key, es[i].key) < 0 {
        if k < i {
          LessTrans(cmp, key, es[k].key, es[i].key);
        }
      }
    }
  }

  lemma {:induction false} DeleteLaws(cmp: Cmp, es: seq<Entry>, gone: Ptr, key: Ptr)
    requires Lawful(cmp) && Sorted(cmp, es)
    ensures Sorted(cmp, Delete(cmp, es, gone))
    ensures Get(cmp, Delete(cmp, es, gone), key) == if cmp(key, gone) == 0 then None else Get(cmp, es, key)
  {
    hide Lawful, Get, Delete, Put;
    var k := Place(cmp, es, gone);
    if k < |es| && cmp(gone, es[k].key) == 0 {
      HitAt(cmp, es, Entry(gone, NULL), k);
      var es' := es[..k] + es[k + 1..];
      assert forall i :: 0 <= i < |es'| ==> es'[i] == es[if i < k then i else i + 1];
      assert es == es[..k] + [es[k]] + es[k + 1..];
      GetSplit(cmp, es[..k] + [es[k]], es[k + 1..], key);
      GetSplit(cmp, es[..k], [es[k]], key);
      GetOne(cmp, es[k], key);
      GetSplit(cmp, es[..k], es[k + 1..], key);
      if cmp(key, gone) == 0 {
        Beside(cmp, es, key, gone, k);
      } else {
        NotSame(cmp, key, gone, es[k].key);
      }
    } else {
      AbsentAt(cmp, es, gone, k);
      if cmp(key, gone) == 0 {
        GetSame(cmp, es, key, gone);
      }
    }
  }

  lemma GetOne(cmp: Cmp, e: Entry, key: Ptr)
    ensures Get(cmp, [e], key) == if cmp(key, e.key) == 0 then Some(e.value) else None
  {
  }

  lemma NotSame(cmp: Cmp, key: Ptr, gone: Ptr, k: Ptr)
    requires Lawful(cmp) && cmp(gone, k) == 0 && cmp(key, gone) != 0
    ensures cmp(key, k) != 0
  {
    hide Lawful;
    Flip(cmp, gone, k);
    if cmp(key, k) == 0 {
      SameKey(cmp, key, k, gone);
    }
  }

  /** Only one entry of a sorted list compares equal to a key. */
  lemma Beside(cmp: Cmp, es: seq<Entry>, key: Ptr, gone: Ptr, k: nat)
    requires Lawful(cmp) && Sorted(cmp, es) && k < |es| && cmp(gone, es[k].key) == 0 && cmp(key, gone) == 0
    ensures Get(cmp, es[..k], key) == None && Get(cmp, es[k + 1..], key) == None
  {
    hide Lawful;
    SameKey(cmp, key, gone, es[k].key);
    forall i | 0 <= i < |es| && i != k ensures cmp(key, es[i].key) != 0 {
      SameKey(cmp, key, es[k].key, es[i].key);
      Flip(cmp, es[k].key, es[i].key);
    }
    GetIsPresence(cmp, es[..k], key);
    GetIsPresence(cmp, es[k + 1..], key);
  }

  datatype Op = Insert(entry: Entry) | Remove(key: Ptr)

  function Apply(cmp: Cmp, es: seq<Entry>, op: Op): seq<Entry> {
    match op
    case Insert(e) => Put(cmp, es, e)
    case Remove(k) => Delete(cmp, es, k)
  }

  function Run(cmp: Cmp, ops: seq<Op>): seq<Entry> {
    if ops == [] then [] else Apply(cmp, Run(cmp, ops[..|ops| - 1]), ops[|ops| - 1])
  }

  /** What a dictionary holds under `key` after `ops`, from the history alone. */
  function Recall(cmp: Cmp, ops: seq<Op>, key: Ptr): Option<Ptr> {
    if ops == [] then None else
    var before := Recall(cmp, ops[..|ops| - 1], key);
    match ops[|ops| - 1]
    case Insert(e) => if cmp(key, e.key) == 0 && before == None then Some(e.value) else before
    case Remove(k) => if cmp(key, k) == 0 then None else before
  }

  /** After any run of inserts and removes a lookup agrees with the dictionary. */
  lemma {:induction false} RunIsDictionary(cmp: Cmp, ops: seq<Op>, key: Ptr)
    requires Lawful(cmp)
    ensures Sorted(cmp, Run(cmp, ops)) && Get(cmp, Run(cmp, ops), key) == Recall(cmp, ops, key)
  {
    if ops != [] {
      var before := ops[..|ops| - 1];
      RunIsDictionary(cmp, before, key);
      match ops[|ops| - 1] {
        case Insert(e) =>
          PutLaws(cmp, Run(cmp, before), e, key);
          if cmp(key, e.key) == 0 {
            GetSame(cmp, Run(cmp, before), key, e.key);
          }
        case Remove(k) =>
          DeleteLaws(cmp, Run(cmp, before), k, key);
      }
    }
  }
}

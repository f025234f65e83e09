/** The local key-value store: byte-string keys and values, kept in
    ascending key order, with point lookups and prefix listings that page
    through the keys with a cursor. Keys and values are strings here, one
    character per byte; character order is then Go's byte order. */
module LocalDb {
  import opened Wrappers
  import opened Text

  datatype Entry = Entry(key: string, value: string)

  /** The store's entries are in strictly ascending key order, so each key
      appears once. */
  predicate Sorted(s: seq<Entry>) {
    forall i, j :: 0 <= i < j < |s| ==> LexLess(s[i].key, s[j].key)
  }

  /** The error of a lookup that finds nothing. */
  const NotFound: string := "Not Found"

  /** Some entry has key `k`. */
  predicate HasKey(s: seq<Entry>, k: string) {
    exists i :: 0 <= i < |s| && s[i].key == k
  }

  /** Get: the value under `k`, or the not-found error. */
  function Get(s: seq<Entry>, k: string): (r: Result<string>)
    ensures r.Ok? <==> HasKey(s, k)
    ensures r.Err? ==> r.msg == NotFound
    ensures r.Ok? ==> exists i :: 0 <= i < |s| && s[i] == Entry(k, r.value)
  {
    if |s| == 0 then Err(NotFound)
    else if s[0].key == k then Ok(s[0].value)
    else
      var r := Get(s[1..], k);
      assert forall i :: 1 <= i < |s| ==> s[i] == s[1..][i - 1];
      assert HasKey(s[1..], k) ==> HasKey(s, k);
      r
  }

  /** Set: stores `v` under `k`, replacing an earlier value. */
  function Set(s: seq<Entry>, k: string, v: string): (r: seq<Entry>)
    requires Sorted(s)
    ensures Sorted(r)
    ensures Entry(k, v) in r
    ensures forall i :: 0 <= i < |r| ==> r[i] == Entry(k, v) || (r[i] in s && r[i].key != k)
    ensures forall e :: e in s && e.key != k ==> e in r
  {
    if |s| == 0 then [Entry(k, v)]
    else if s[0].key == k then
      LexIrreflexive(k);
      [Entry(k, v)] + s[1..]
    else if LexLess(k, s[0].key) then
      assert forall i :: 0 <= i < |s| ==> LexLess(k, s[i].key) && s[i].key != k by {
        forall i | 0 <= i < |s| ensures LexLess(k, s[i].key) && s[i].key != k {
          if i > 0 {
            LexTransitive(k, s[0].key, s[i].key);
          }
          LexIrreflexive(k);
        }
      }
      [Entry(k, v)] + s
    else
      LexTotal(k, s[0].key);
      var rest := Set(s[1..], k, v);
      assert forall i :: 0 <= i < |rest| ==> LexLess(s[0].key, rest[i].key) by {
        forall i | 0 <= i < |rest| ensures LexLess(s[0].key, rest[i].key) {
          if rest[i] != Entry(k, v) {
            var j :| 0 <= j < |s[1..]| && s[1..][j] == rest[i];
            assert s[j + 1] == rest[i];
          }
        }
      }
      [s[0]] + rest
  }

  /** Delete: removes the entry under `k`; deleting an absent key is not an
      error. */
  function Delete(s: seq<Entry>, k: string): (r: seq<Entry>)
    requires Sorted(s)
    ensures Sorted(r)
    ensures forall i :: 0 <= i < |r| ==> r[i] in s && r[i].key != k
    ensures forall e :: e in s && e.key != k ==> e in r
  {
    if |s| == 0 then []
    else if s[0].key == k then
      Delete(s[1..], k)
    else
      var rest := Delete(s[1..], k);
      assert forall i :: 0 <= i < |rest| ==> LexLess(s[0].key, rest[i].key) by {
        forall i | 0 <= i < |rest| ensures LexLess(s[0].key, rest[i].key) {
          var j :| 0 <= j < |s[1..]| && s[1..][j] == rest[i];
          assert s[j + 1] == rest[i];
        }
      }
      [s[0]] + rest
  }

  /** In a sorted store an entry is determined by its key. */
  lemma UniqueKeys(s: seq<Entry>, i: nat, j: nat)
    requires Sorted(s) && i < |s| && j < |s| && s[i].key == s[j].key
    ensures i == j
  {
    if i != j {
      LexIrreflexive(s[i].key);
    }
  }

  /** Get after Set of the same key returns the stored value. */
  lemma GetSetSame(s: seq<Entry>, k: string, v: string)
    requires Sorted(s)
    ensures Get(Set(s, k, v), k) == Ok(v)
  {
    var r := Set(s, k, v);
    var i :| 0 <= i < |r| && r[i] == Entry(k, v);
    assert HasKey(r, k);
    var j :| 0 <= j < |r| && r[j] == Entry(k, Get(r, k).value);
    assert r[j] == Entry(k, v);
  }

  /** Set leaves every other key's lookup unchanged. */
  lemma GetSetOther(s: seq<Entry>, k: string, v: string, k': string)
    requires Sorted(s) && k' != k
    ensures Get(Set(s, k, v), k') == Get(s, k')
  {
    var r := Set(s, k, v);
    if Get(s, k').Ok? {
      var i :| 0 <= i < |s| && s[i] == Entry(k', Get(s, k').value);
      assert s[i] in r;
      var j :| 0 <= j < |r| && r[j] == s[i];
      var j' :| 0 <= j' < |r| && r[j'] == Entry(k', Get(r, k').value);
      UniqueKeys(r, j, j');
    }
  }

  /** A later Set overwrites an earlier one. */
  lemma SetOverwrites(s: seq<Entry>, k: string, v: string, w: string)
    requires Sorted(s)
    ensures Get(Set(Set(s, k, v), k, w), k) == Ok(w)
  {
    GetSetSame(Set(s, k, v), k, w);
  }

  /** After Delete, the key is not found; other keys are untouched. */
  lemma GetDelete(s: seq<Entry>, k: string, k': string)
    requires Sorted(s)
    ensures Get(Delete(s, k), k) == Err(NotFound)
    ensures k' != k ==> Get(Delete(s, k), k') == Get(s, k')
  {
    var r := Delete(s, k);
    if k' != k {
      if Get(s, k').Ok? {
        var i :| 0 <= i < |s| && s[i] == Entry(k', Get(s, k').value);
        assert s[i] in r;
        var j :| 0 <= j < |r| && r[j] == s[i];
        var j' :| 0 <= j' < |r| && r[j'] == Entry(k', Get(r, k').value);
        UniqueKeys(r, j, j');
      }
    }
  }

  /** The iterator's Seek: the index of the first entry whose key is not
      below `start`. */
  function Seek(s: seq<Entry>, start: string): (i: nat)
    ensures i <= |s|
    ensures forall j :: 0 <= j < i ==> LexLess(s[j].key, start)
    ensures i < |s| ==> !LexLess(s[i].key, start)
  {
    if |s| == 0 || !LexLess(s[0].key, start) then 0
    else
      var i := Seek(s[1..], start);
      assert forall j :: 1 <= j < |s| ==> s[j] == s[1..][j - 1];
      1 + i
  }

  /** Seeking a stored key lands on it. */
  lemma SeekKey(s: seq<Entry>, m: nat)
    requires Sorted(s) && m < |s|
    ensures Seek(s, s[m].key) == m
  {
    LexIrreflexive(s[m].key);
  }

  /** One page of a prefix listing. `nextKey` is the cursor for the next
      page, `None` when the listing is exhausted. */
  datatype Page = Page(items: seq<Entry>, nextKey: Option<string>)

  /** The iteration of the listings from index `i` while the keys carry
      `prefix`, with room for `room` more items; a negative room never runs
      out. When the room is used up, the next matching key becomes the
      cursor. */
  function Scan(s: seq<Entry>, prefix: string, i: nat, room: int): (p: Page)
    requires i <= |s|
    ensures i + |p.items| <= |s| && p.items == s[i..i + |p.items|]
    ensures room >= 0 ==> |p.items| <= room
    ensures forall m :: i <= m < i + |p.items| ==> HasPrefix(s[m].key, prefix)
    ensures p.nextKey.Some? <==> i + |p.items| < |s| && HasPrefix(s[i + |p.items|].key, prefix)
    ensures p.nextKey.Some? ==> p.nextKey.value == s[i + |p.items|].key && |p.items| == room
    decreases |s| - i
  {
    if i == |s| || !HasPrefix(s[i].key, prefix) then Page([], None)
    else if room == 0 then Page([], Some(s[i].key))
    else
      var rest := Scan(s, prefix, i + 1, room - 1);
      assert [s[i]] + s[i + 1..i + 1 + |rest.items|] == s[i..i + 1 + |rest.items|];
      Page([s[i]] + rest.items, rest.nextKey)
  }

  function KeysOf(es: seq<Entry>): (ks: seq<string>)
    ensures |ks| == |es| && forall m :: 0 <= m < |es| ==> ks[m] == es[m].key
  {
    if |es| == 0 then [] else [es[0].key] + KeysOf(es[1..])
  }

  function ValuesOf(es: seq<Entry>): (vs: seq<string>)
    ensures |vs| == |es| && forall m :: 0 <= m < |es| ==> vs[m] == es[m].value
  {
    if |es| == 0 then [] else [es[0].value] + ValuesOf(es[1..])
  }

  /** GetKeysWithPrefix: from the first key not below `start`, the keys
      that carry `prefix`, at most `limit` of them (all of them for a
      negative limit), and the cursor of the next page. */
  function GetKeysWithPrefix(s: seq<Entry>, prefix: string, start: string, limit: int): (r: (seq<string>, Option<string>))
    requires Sorted(s)
    ensures limit >= 0 ==> |r.0| <= limit
    ensures forall m :: 0 <= m < |r.0| ==> HasPrefix(r.0[m], prefix) && !LexLess(r.0[m], start)
    ensures forall m, n :: 0 <= m < n < |r.0| ==> LexLess(r.0[m], r.0[n])
    ensures r.1.Some? ==> HasPrefix(r.1.value, prefix) && (|r.0| == 0 || LexLess(r.0[|r.0| - 1], r.1.value))
    ensures PageAt(s, prefix, Seek(s, start), limit, r.0, r.1)
  {
    var i := Seek(s, start);
    var p := Scan(s, prefix, i, limit);
    PageFacts(s, prefix, start, limit, i, p, KeysOf(p.items));
    (KeysOf(p.items), p.nextKey)
  }

  /** `ks` are the keys of the contiguous run of `s` from index `i`, all
      carrying `prefix`; `next` is the key just after the run, present
      exactly when that key carries the prefix too, which happens only when
      the page is full. */
  predicate PageAt(s: seq<Entry>, prefix: string, i: nat, limit: int, ks: seq<string>, next: Option<string>) {
    i + |ks| <= |s| && ks == KeysOf(s[i..i + |ks|])
    && (forall x :: i <= x < i + |ks| ==> HasPrefix(s[x].key, prefix))
    && (next.Some? <==> i + |ks| < |s| && HasPrefix(s[i + |ks|].key, prefix))
    && (next.Some? ==> next.value == s[i + |ks|].key && |ks| == limit)
  }

  /** The keys of a scanned page are the keys of the run of the store it
      covers, and the cursor is the key just after that run. */
  lemma ScanKeys(s: seq<Entry>, prefix: string, i: nat, limit: int)
    requires i <= |s|
    ensures var p := Scan(s, prefix, i, limit);
            PageAt(s, prefix, i, limit, KeysOf(p.items), p.nextKey)
  {
  }

  /** What one scanned page of a sorted store shows: its keys ascend from
      `start` on, carry the prefix, number at most `limit`, and sort before
      the cursor. */
  lemma PageFacts(s: seq<Entry>, prefix: string, start: string, limit: int, i: nat, p: Page, ks: seq<string>)
    requires Sorted(s) && i == Seek(s, start) && p == Scan(s, prefix, i, limit) && ks == KeysOf(p.items)
    ensures limit >= 0 ==> |ks| <= limit
    ensures forall m :: 0 <= m < |ks| ==> HasPrefix(ks[m], prefix) && !LexLess(ks[m], start)
    ensures forall m, n :: 0 <= m < n < |ks| ==> LexLess(ks[m], ks[n])
    ensures p.nextKey.Some? ==> HasPrefix(p.nextKey.value, prefix) && (|ks| == 0 || LexLess(ks[|ks| - 1], p.nextKey.value))
    ensures PageAt(s, prefix, i, limit, ks, p.nextKey)
  {
    ScanKeys(s, prefix, i, limit);
    PageOrder(s, prefix, start, i, p, ks);
  }

  /** The order half of `PageFacts`. */
  lemma PageOrder(s: seq<Entry>, prefix: string, start: string, i: nat, p: Page, ks: seq<string>)
    requires Sorted(s) && i == Seek(s, start) && ks == KeysOf(p.items)
    requires i + |p.items| <= |s| && p.items == s[i..i + |p.items|]
    requires forall j :: i <= j < i + |p.items| ==> HasPrefix(s[j].key, prefix)
    requires p.nextKey.Some? ==> i + |p.items| < |s| && p.nextKey.value == s[i + |p.items|].key
    ensures forall m :: 0 <= m < |ks| ==> HasPrefix(ks[m], prefix) && !LexLess(ks[m], start)
    ensures forall m, n :: 0 <= m < n < |ks| ==> LexLess(ks[m], ks[n])
    ensures p.nextKey.Some? ==> |ks| == 0 || LexLess(ks[|ks| - 1], p.nextKey.value)
  {
    ListingFacts(s, prefix, start, i, p.items);
    var n := |p.items|;
    if p.nextKey.Some? && n > 0 {
      assert LexLess(s[i + n - 1].key, s[i + n].key);
    }
  }

  /** The keys of a run of a sorted store found from `start` ascend, are
      not below `start`, and carry the prefix. */
  lemma ListingFacts(s: seq<Entry>, prefix: string, start: string, i: nat, items: seq<Entry>)
    requires Sorted(s) && i == Seek(s, start) && i + |items| <= |s| && items == s[i..i + |items|]
    requires forall j :: i <= j < i + |items| ==> HasPrefix(s[j].key, prefix)
    ensures forall m :: 0 <= m < |items| ==> HasPrefix(KeysOf(items)[m], prefix)
    ensures forall m :: 0 <= m < |items| ==> !LexLess(KeysOf(items)[m], start)
    ensures forall m, m' :: 0 <= m < m' < |items| ==> LexLess(KeysOf(items)[m], KeysOf(items)[m'])
  {
    var n := |items|;
    var ks := KeysOf(items);
    assert forall m :: 0 <= m < n ==> ks[m] == s[i + m].key;
    forall m | 0 <= m < n ensures !LexLess(ks[m], start) {
      if m > 0 && LexLess(s[i + m].key, start) {
        LexTransitive(s[i].key, s[i + m].key, start);
      }
    }
    forall m, m' | 0 <= m < m' < n ensures LexLess(ks[m], ks[m']) {
      assert LexLess(s[i + m].key, s[i + m'].key);
    }
  }

  /** GetPrefixP: the same listing, giving the values. */
  function GetPrefixP(s: seq<Entry>, prefix: string, start: string, limit: int): (r: (seq<string>, Option<string>))
    requires Sorted(s)
    ensures r.1 == GetKeysWithPrefix(s, prefix, start, limit).1
    ensures |r.0| == |GetKeysWithPrefix(s, prefix, start, limit).0|
    ensures forall m :: 0 <= m < |r.0| ==> Get(s, GetKeysWithPrefix(s, prefix, start, limit).0[m]) == Ok(r.0[m])
  {
    var i := Seek(s, start);
    var p := Scan(s, prefix, i, limit);
    forall m | 0 <= m < |p.items| ensures Get(s, p.items[m].key) == Ok(p.items[m].value) {
      assert p.items[m] == s[i + m];
      var j :| 0 <= j < |s| && s[j] == Entry(p.items[m].key, Get(s, p.items[m].key).value);
      UniqueKeys(s, j, i + m);
    }
    (ValuesOf(p.items), p.nextKey)
  }

  /** GetKeys: at most `limit` keys carrying `prefix`, from the prefix on,
      with no cursor. */
  function GetKeys(s: seq<Entry>, prefix: string, limit: int): (ks: seq<string>)
    requires Sorted(s)
    ensures limit <= 0 ==> ks == []
    ensures limit > 0 ==> ks == GetKeysWithPrefix(s, prefix, prefix, limit).0
  {
    if limit <= 0 then [] else KeysOf(Scan(s, prefix, Seek(s, prefix), limit).items)
  }

  lemma KeysOfSplit(s: seq<Entry>, i: nat, m: nat, e: nat)
    requires i <= m <= e <= |s|
    ensures KeysOf(s[i..m]) + KeysOf(s[m..e]) == KeysOf(s[i..e])
  {
    var a, b, c := KeysOf(s[i..m]), KeysOf(s[m..e]), KeysOf(s[i..e]);
    assert forall x :: 0 <= x < |a| ==> a[x] == s[i + x].key;
    assert forall x :: 0 <= x < |b| ==> b[x] == s[m + x].key;
    assert forall x :: 0 <= x < |c| ==> c[x] == s[i + x].key;
    assert forall x :: 0 <= x < |c| ==> (a + b)[x] == c[x];
  }

  /** The keys carrying `prefix`, in store order: the reference listing. */
  function KeysWithPrefix(s: seq<Entry>, prefix: string): seq<string> {
    if |s| == 0 then []
    else if HasPrefix(s[0].key, prefix) then [s[0].key] + KeysWithPrefix(s[1..], prefix)
    else KeysWithPrefix(s[1..], prefix)
  }

  /** Following the cursor from `start` until it runs out, collecting every
      page. */
  function AllPages(s: seq<Entry>, prefix: string, start: string, limit: int): seq<string>
    requires Sorted(s) && limit > 0
    decreases |s| - Seek(s, start)
  {
    var page := GetKeysWithPrefix(s, prefix, start, limit);
    if page.1.None? then page.0
    else
      SeekKey(s, Seek(s, start) + |page.0|);
      page.0 + AllPages(s, prefix, page.1.value, limit)
  }

  /** The end of the run of entries from `i` that carry `prefix`. */
  function RunEnd(s: seq<Entry>, prefix: string, i: nat): (e: nat)
    requires i <= |s|
    ensures i <= e <= |s|
    ensures forall m :: i <= m < e ==> HasPrefix(s[m].key, prefix)
    ensures e < |s| ==> !HasPrefix(s[e].key, prefix)
    decreases |s| - i
  {
    if i < |s| && HasPrefix(s[i].key, prefix) then RunEnd(s, prefix, i + 1) else i
  }

  /** The run's end is where the prefix first fails. */
  lemma {:induction false} RunEndAt(s: seq<Entry>, prefix: string, i: nat, e: nat)
    requires i <= e <= |s|
    requires forall m :: i <= m < e ==> HasPrefix(s[m].key, prefix)
    requires e < |s| ==> !HasPrefix(s[e].key, prefix)
    ensures RunEnd(s, prefix, i) == e
    decreases e - i
  {
    if i < e {
      RunEndAt(s, prefix, i + 1, e);
    }
  }

  /** Paging with the cursor collects the whole run from the start key. */
  lemma {:induction false} PagesCoverRun(s: seq<Entry>, prefix: string, start: string, limit: int)
    requires Sorted(s) && limit > 0
    ensures var i := Seek(s, start);
            AllPages(s, prefix, start, limit) == KeysOf(s[i..RunEnd(s, prefix, i)])
    decreases |s| - Seek(s, start)
  {
    var i := Seek(s, start);
    var page := GetKeysWithPrefix(s, prefix, start, limit);
    var m := i + |page.0|;
    if page.1.None? {
      RunEndAt(s, prefix, i, m);
    } else {
      SeekKey(s, m);
      PagesCoverRun(s, prefix, page.1.value, limit);
      var e := RunEnd(s, prefix, m);
      RunEndAt(s, prefix, i, e);
      KeysOfSplit(s, i, m, e);
    }
  }

  /** Keys below the prefix do not carry it, and neither does any key
      after the first one past the prefix's run: the run starting at the
      prefix holds every key that carries it. */
  lemma RunIsAll(s: seq<Entry>, prefix: string)
    requires Sorted(s)
    ensures var i := Seek(s, prefix);
            var e := RunEnd(s, prefix, i);
            (forall m :: 0 <= m < i ==> !HasPrefix(s[m].key, prefix))
            && (forall m :: e <= m < |s| ==> !HasPrefix(s[m].key, prefix))
  {
    var i := Seek(s, prefix);
    var e := RunEnd(s, prefix, i);
    forall m | 0 <= m < i ensures !HasPrefix(s[m].key, prefix) {
      if HasPrefix(s[m].key, prefix) {
        PrefixNotBelow(prefix, s[m].key);
      }
    }
    forall m | e <= m < |s| ensures !HasPrefix(s[m].key, prefix) {
      if m > e && HasPrefix(s[m].key, prefix) {
        assert !LexLess(s[e].key, prefix) by {
          if LexLess(s[e].key, prefix) {
            if i < e {
              LexTransitive(s[i].key, s[e].key, prefix);
            }
          }
        }
        LexAsymmetric(s[e].key, s[m].key);
        PrefixBetween(prefix, s[e].key, s[m].key);
      }
    }
  }

  lemma {:induction false} KeysWithPrefixSplit(s: seq<Entry>, e: nat, prefix: string)
    requires e <= |s|
    ensures KeysWithPrefix(s, prefix) == KeysWithPrefix(s[..e], prefix) + KeysWithPrefix(s[e..], prefix)
  {
    if e == 0 {
      assert s[e..] == s;
    } else {
      assert s[..e][0] == s[0] && s[..e][1..] == s[1..][..e - 1];
      assert s[e..] == s[1..][e - 1..];
      KeysWithPrefixSplit(s[1..], e - 1, prefix);
    }
  }

  lemma {:induction false} KeysWithPrefixNone(a: seq<Entry>, prefix: string)
    requires forall m :: 0 <= m < |a| ==> !HasPrefix(a[m].key, prefix)
    ensures KeysWithPrefix(a, prefix) == []
  {
    if |a| > 0 {
      KeysWithPrefixNone(a[1..], prefix);
    }
  }

  lemma {:induction false} KeysWithPrefixAll(a: seq<Entry>, prefix: string)
    requires forall m :: 0 <= m < |a| ==> HasPrefix(a[m].key, prefix)
    ensures KeysWithPrefix(a, prefix) == KeysOf(a)
  {
    if |a| > 0 {
      KeysWithPrefixAll(a[1..], prefix);
    }
  }

  /** Paging from the prefix itself visits every key that carries the
      prefix exactly once, in ascending order. */
  lemma PagingVisitsAll(s: seq<Entry>, prefix: string, limit: int)
    requires Sorted(s) && limit > 0
    ensures AllPages(s, prefix, prefix, limit) == KeysWithPrefix(s, prefix)
  {
    var i := Seek(s, prefix);
    var e := RunEnd(s, prefix, i);
    PagesCoverRun(s, prefix, prefix, limit);
    RunIsAll(s, prefix);
    assert forall m :: i <= m < e ==> HasPrefix(s[m].key, prefix);
    OneRun(s, i, e, prefix);
  }

  /** When the keys with the prefix form one run, they are that run's keys. */
  lemma OneRun(s: seq<Entry>, i: nat, e: nat, prefix: string)
    requires i <= e <= |s|
    requires forall m :: 0 <= m < i ==> !HasPrefix(s[m].key, prefix)
    requires forall m :: i <= m < e ==> HasPrefix(s[m].key, prefix)
    requires forall m :: e <= m < |s| ==> !HasPrefix(s[m].key, prefix)
    ensures KeysWithPrefix(s, prefix) == KeysOf(s[i..e])
  {
    KeysWithPrefixSplit(s, e, prefix);
    KeysWithPrefixSplit(s[..e], i, prefix);
    assert s[..e][..i] == s[..i] && s[..e][i..] == s[i..e];
    KeysWithPrefixNone(s[..i], prefix);
    KeysWithPrefixAll(s[i..e], prefix);
    KeysWithPrefixNone(s[e..], prefix);
  }
}

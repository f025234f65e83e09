/** `config ls`: the settings tree flattened to one line per leaf, the
    keys of nested tables joined with dots. The tree is given in the order
    the traversal meets its keys. */
module ConfigLs {
  import opened Wrappers
  import opened Text

  /** A setting as the configuration library hands it over: a string, an
      int, a list (each item already in its `%v` spelling), a nested table,
      or a value of any other type (a bool, a float, ...). */
  datatype Setting =
    | SString(s: string)
    | SInt(i: int)
    | SList(items: seq<string>)
    | STable(entries: seq<Entry>)
    | SOther
  datatype Entry = Entry(key: string, value: Setting)

  /** The panic an unknown value type raises. */
  const UnknownValue: string := "Unknown value"

  /** The dotted path of a key under `parent`; a top-level key stands
      alone. */
  function KeyPath(parent: string, key: string): (p: string)
    ensures parent == "" ==> p == key
    ensures parent != "" ==> p == parent + "." + key
  {
    if parent == "" then key else parent + "." + key
  }

  /** The items of a list, each after one space. */
  function Spaced(items: seq<string>): string {
    if |items| == 0 then "" else " " + items[0] + Spaced(items[1..])
  }

  /** The line a leaf is printed as. */
  function LeafLine(path: string, v: Setting): string
    requires v.SString? || v.SInt? || v.SList?
  {
    match v
    case SString(s) => path + ": " + s
    case SInt(i) => path + ": " + IntToString(i)
    case SList(items) => path + ":" + Spaced(items)
  }

  /** traverse: the lines of the entries in order, a nested table's lines
      in its place; the first value of an unknown type stops it. */
  function Traverse(parent: string, entries: seq<Entry>): (r: Result<seq<string>>)
    ensures r.Err? ==> r.msg == UnknownValue
    decreases entries
  {
    if |entries| == 0 then Ok([])
    else
      var e := entries[0];
      var path := KeyPath(parent, e.key);
      var first :=
        match e.value
        case STable(es) => Traverse(path, es)
        case SOther => Err(UnknownValue)
        case _ => Ok([LeafLine(path, e.value)]);
      if first.Err? then first
      else
        var rest := Traverse(parent, entries[1..]);
        if rest.Err? then rest else Ok(first.value + rest.value)
  }

  /** No value of an unknown type anywhere in the tree. */
  predicate Known(entries: seq<Entry>)
    decreases entries
  {
    forall k :: 0 <= k < |entries| ==>
      !entries[k].value.SOther? && (entries[k].value.STable? ==> Known(entries[k].value.entries))
  }

  /** The number of leaves in the tree. */
  function Leaves(entries: seq<Entry>): nat
    decreases entries
  {
    if |entries| == 0 then 0
    else
      (match entries[0].value
       case STable(es) => Leaves(es)
       case SOther => 0
       case _ => 1)
      + Leaves(entries[1..])
  }

  /** The traversal succeeds exactly when every value has a known type,
      and then prints one line per leaf. */
  lemma {:induction false} TraverseKnown(parent: string, entries: seq<Entry>)
    ensures Traverse(parent, entries).Ok? <==> Known(entries)
    ensures Traverse(parent, entries).Ok? ==> |Traverse(parent, entries).value| == Leaves(entries)
    decreases entries
  {
    if |entries| > 0 {
      var e := entries[0];
      TraverseKnown(parent, entries[1..]);
      if e.value.STable? {
        TraverseKnown(KeyPath(parent, e.key), e.value.entries);
      }
      KnownCons(entries);
    }
  }

  /** The tree is known when its first value and the rest are. */
  lemma KnownCons(entries: seq<Entry>)
    requires |entries| > 0
    ensures Known(entries) <==>
              (!entries[0].value.SOther? && (entries[0].value.STable? ==> Known(entries[0].value.entries))
               && Known(entries[1..]))
  {
    if !entries[0].value.SOther? && (entries[0].value.STable? ==> Known(entries[0].value.entries))
       && Known(entries[1..]) {
      forall k | 0 <= k < |entries|
        ensures !entries[k].value.SOther? && (entries[k].value.STable? ==> Known(entries[k].value.entries))
      {
        if k > 0 {
          assert entries[k] == entries[1..][k - 1];
        }
      }
    }
  }

  /** The leaf reached from `entries` by the keys `path`, each key found
      at its level. */
  predicate LeafAt(entries: seq<Entry>, path: seq<string>, v: Setting)
    decreases entries
  {
    |path| > 0 &&
    exists k :: 0 <= k < |entries| && entries[k].key == path[0]
      && (if |path| == 1 then entries[k].value == v
          else entries[k].value.STable? && LeafAt(entries[k].value.entries, path[1..], v))
  }

  /** The dotted form of a key path under `parent`. */
  function Dotted(parent: string, path: seq<string>): string
    decreases |path|
  {
    if |path| == 0 then parent else Dotted(KeyPath(parent, path[0]), path[1..])
  }

  /** Every string, int or list leaf is printed, as its dotted path and its
      value. */
  lemma {:induction false} LeafPrinted(parent: string, entries: seq<Entry>, path: seq<string>, v: Setting)
    requires Traverse(parent, entries).Ok?
    requires v.SString? || v.SInt? || v.SList?
    requires LeafAt(entries, path, v)
    ensures LeafLine(Dotted(parent, path), v) in Traverse(parent, entries).value
    decreases entries
  {
    var k :| 0 <= k < |entries| && entries[k].key == path[0]
             && (if |path| == 1 then entries[k].value == v
                 else entries[k].value.STable? && LeafAt(entries[k].value.entries, path[1..], v));
    EntryPrinted(parent, entries, k);
    var e := entries[k];
    var p := KeyPath(parent, e.key);
    if |path| == 1 {
      assert Dotted(parent, path) == Dotted(p, path[1..]);
      assert path[1..] == [];
    } else {
      LeafPrinted(p, e.value.entries, path[1..], v);
    }
  }

  /** The lines of the k-th entry appear among the lines of the whole. */
  lemma {:induction false} EntryPrinted(parent: string, entries: seq<Entry>, k: nat)
    requires Traverse(parent, entries).Ok? && k < |entries|
    ensures var e := entries[k];
            var p := KeyPath(parent, e.key);
            !e.value.SOther?
            && (e.value.STable? ==> Traverse(p, e.value.entries).Ok?
                                    && forall l :: l in Traverse(p, e.value.entries).value ==> l in Traverse(parent, entries).value)
            && (!e.value.STable? ==> LeafLine(p, e.value) in Traverse(parent, entries).value)
    decreases |entries|
  {
    if k > 0 {
      EntryPrinted(parent, entries[1..], k - 1);
      assert entries[1..][k - 1] == entries[k];
    }
  }
}

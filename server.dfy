/**
 * The in-memory catalog of the item search service: an ordered list of
 * items, a name-to-id index and an append-only activity log, with one
 * method per request handler. Requests are handled one at a time; the
 * decoded request body and the parsed `id` parameter arrive as options.
 */
module Server {
  import opened Wrappers
  import opened Text

  /** One catalog record. */
  datatype Item = Item(id: int, name: string, price: int)

  /** One activity-log entry, recorded as data rather than as formatted text. */
  datatype LogEntry = Searched(query: string) | Added(name: string) | Deleted(id: int)

  /** The handlers' error answers: bad body, bad id parameter, unknown id. */
  datatype Error = InvalidInput | InvalidId | ItemNotFound

  /** The four items the catalog starts with. */
  const Seed: seq<Item> := [
    Item(1, "Laptop", 12000000),
    Item(2, "Smartphone", 8000000),
    Item(3, "Headphones", 200000),
    Item(4, "PS 4", 2500000)
  ]

  function Names(s: seq<Item>): (r: seq<string>)
    ensures |r| == |s| && forall j :: 0 <= j < |s| ==> r[j] == s[j].name
  {
    if s == [] then [] else Names(s[..|s| - 1]) + [s[|s| - 1].name]
  }

  function Ids(s: seq<Item>): (r: seq<int>)
    ensures |r| == |s| && forall j :: 0 <= j < |s| ==> r[j] == s[j].id
  {
    if s == [] then [] else Ids(s[..|s| - 1]) + [s[|s| - 1].id]
  }

  // ---------------------------------------------------------------------
  // The name index

  /** The index built by inserting every item's name in list order. */
  function NameIndex(s: seq<Item>): map<string, int> {
    if s == [] then map[] else NameIndex(s[..|s| - 1])[s[|s| - 1].name := s[|s| - 1].id]
  }

  /** The keys of the built index are exactly the names in the list. */
  lemma {:induction false} NameIndexKeys(s: seq<Item>)
    ensures forall n :: n in NameIndex(s) <==> exists j :: 0 <= j < |s| && s[j].name == n
  {
    if s != [] {
      var init := s[..|s| - 1];
      NameIndexKeys(init);
      forall n | exists j :: 0 <= j < |s| && s[j].name == n
        ensures n in NameIndex(s)
      {
        var j :| 0 <= j < |s| && s[j].name == n;
        if j < |s| - 1 {
          assert init[j].name == n;
        }
      }
    }
  }

  /** For a duplicated name, the last item carrying it wins. */
  lemma {:induction false} NameIndexLastWins(s: seq<Item>, j: nat)
    requires j < |s|
    requires forall k :: j < k < |s| ==> s[k].name != s[j].name
    ensures s[j].name in NameIndex(s) && NameIndex(s)[s[j].name] == s[j].id
  {
    if j < |s| - 1 {
      var init := s[..|s| - 1];
      NameIndexLastWins(init, j);
    }
  }

  /** Every key of the built index maps to the id of an item with that name. */
  lemma {:induction false} NameIndexSound(s: seq<Item>)
    ensures IndexSound(s, NameIndex(s))
  {
    if s != [] {
      var init := s[..|s| - 1];
      NameIndexSound(init);
      AppendKeepsSound(init, NameIndex(init), s[|s| - 1]);
      assert init + [s[|s| - 1]] == s;
    }
  }

  /** The index the catalog starts with. */
  lemma SeedIndex()
    ensures NameIndex(Seed) == map["Laptop" := 1, "Smartphone" := 2, "Headphones" := 3, "PS 4" := 4]
  {
    assert Seed[..1][..0] == [] && Seed[..2][..1] == Seed[..1];
    assert Seed[..3][..2] == Seed[..2] && Seed[..|Seed| - 1] == Seed[..3];
    assert NameIndex(Seed[..1]) == map["Laptop" := 1];
    assert NameIndex(Seed[..2]) == map["Laptop" := 1, "Smartphone" := 2];
    assert NameIndex(Seed[..3]) == map["Laptop" := 1, "Smartphone" := 2, "Headphones" := 3];
  }

  /** Every key of `m` names some item of `s` that has the id `m` gives it. */
  ghost predicate IndexSound(s: seq<Item>, m: map<string, int>) {
    forall n :: n in m ==> exists j :: 0 <= j < |s| && s[j].name == n && s[j].id == m[n]
  }

  /** Every item of `s` has its name as a key of `m`. */
  ghost predicate IndexComplete(s: seq<Item>, m: map<string, int>) {
    forall j :: 0 <= j < |s| ==> s[j].name in m
  }

  /**
   * At every key it still has, `m` agrees with the index built from `s`,
   * so the last item carrying a name keeps winning. Keys may be missing.
   */
  ghost predicate IndexAgrees(s: seq<Item>, m: map<string, int>) {
    forall n :: n in m ==> n in NameIndex(s) && NameIndex(s)[n] == m[n]
  }

  /** An index that agrees with the built one is sound. */
  lemma AgreementIsSound(s: seq<Item>, m: map<string, int>)
    requires IndexAgrees(s, m)
    ensures IndexSound(s, m)
  {
    NameIndexSound(s);
  }

  // ---------------------------------------------------------------------
  // Search

  /** Whether an item's lower-cased name contains the (already lower-cased) query. */
  predicate Matches(it: Item, q: string) {
    Contains(Lower(it.name), q)
  }

  /** The items of `s` that match `q`, in list order. */
  function Matching(s: seq<Item>, q: string): (r: seq<Item>)
    ensures |r| <= |s|
    ensures forall x :: x in r ==> x in s && Matches(x, q)
  {
    if s == [] then []
    else Matching(s[..|s| - 1], q) + (if Matches(s[|s| - 1], q) then [s[|s| - 1]] else [])
  }

  /** The positions of the items of `s` that match `q`, ascending. */
  ghost function MatchPositions(s: seq<Item>, q: string): (p: seq<nat>)
    ensures forall k :: 0 <= k < |p| ==> p[k] < |s|
  {
    if s == [] then []
    else MatchPositions(s[..|s| - 1], q) + (if Matches(s[|s| - 1], q) then [|s| - 1] else [])
  }

  /** The k-th result of `Matching` is the item at the k-th matching position. */
  lemma {:induction false} MatchingAtPositions(s: seq<Item>, q: string)
    ensures |MatchPositions(s, q)| == |Matching(s, q)|
    ensures forall k :: 0 <= k < |Matching(s, q)| ==> Matching(s, q)[k] == s[MatchPositions(s, q)[k]]
  {
    if s != [] {
      var init := s[..|s| - 1];
      MatchingAtPositions(init, q);
      var r0, p0 := Matching(init, q), MatchPositions(init, q);
      forall k | 0 <= k < |p0|
        ensures s[p0[k]] == init[p0[k]]
      {
      }
    }
  }

  /** The matching positions ascend strictly, so `Matching` keeps list order. */
  lemma {:induction false} MatchPositionsAscend(s: seq<Item>, q: string)
    ensures forall k, l :: 0 <= k < l < |MatchPositions(s, q)| ==> MatchPositions(s, q)[k] < MatchPositions(s, q)[l]
  {
    if s != [] {
      MatchPositionsAscend(s[..|s| - 1], q);
    }
  }

  /** A position is listed exactly when the item there matches. */
  lemma {:induction false} MatchPositionsExact(s: seq<Item>, q: string)
    ensures forall j :: 0 <= j < |s| ==> (Matches(s[j], q) <==> j in MatchPositions(s, q))
  {
    if s != [] {
      var init := s[..|s| - 1];
      MatchPositionsExact(init, q);
      assert forall j :: 0 <= j < |init| ==> init[j] == s[j];
      assert |s| - 1 !in MatchPositions(init, q);
    }
  }

  /** An empty query returns every item. */
  lemma {:induction false} MatchingEmptyQuery(s: seq<Item>)
    ensures Matching(s, "") == s
  {
    if s != [] {
      MatchingEmptyQuery(s[..|s| - 1]);
    }
  }

  /** Two queries that differ only in ASCII case give the same results. */
  lemma MatchingCaseInsensitive(s: seq<Item>, q1: string, q2: string)
    requires |q1| == |q2|
    requires forall i :: 0 <= i < |q1| ==> LowerChar(q1[i]) == LowerChar(q2[i])
    ensures Matching(s, Lower(q1)) == Matching(s, Lower(q2))
  {
    assert Lower(q1) == Lower(q2);
  }

  // ---------------------------------------------------------------------
  // Deletion

  /** The position of the first item with the given id, if any. */
  function FirstWithId(s: seq<Item>, id: int): (r: Option<nat>)
    ensures r.Some? ==> r.value < |s| && s[r.value].id == id
    ensures r.Some? ==> forall j :: 0 <= j < r.value ==> s[j].id != id
    ensures r.None? ==> forall j :: 0 <= j < |s| ==> s[j].id != id
  {
    if s == [] then None
    else if s[0].id == id then Some(0)
    else match FirstWithId(s[1..], id)
      case None => None
      case Some(k) => Some(k + 1)
  }

  /** `s` with its k-th element spliced out; the others keep their order. */
  function RemoveAt(s: seq<Item>, k: nat): (r: seq<Item>)
    requires k < |s|
    ensures |r| == |s| - 1
    ensures forall j :: 0 <= j < |r| ==> r[j] == if j < k then s[j] else s[j + 1]
  {
    s[..k] + s[k + 1..]
  }

  /** The index stays sound when an item is appended and its name mapped to its id. */
  lemma AppendKeepsSound(s: seq<Item>, m: map<string, int>, it: Item)
    requires IndexSound(s, m)
    ensures IndexSound(s + [it], m[it.name := it.id])
  {
    var s', m' := s + [it], m[it.name := it.id];
    forall n | n in m'
      ensures exists j :: 0 <= j < |s'| && s'[j].name == n && s'[j].id == m'[n]
    {
      if n == it.name {
        assert s'[|s|] == it;
      } else {
        var j :| 0 <= j < |s| && s[j].name == n && s[j].id == m[n];
        assert s'[j] == s[j];
      }
    }
  }

  /** The index stays sound when an item is spliced out and its name dropped from the index. */
  lemma RemoveKeepsSound(s: seq<Item>, m: map<string, int>, k: nat)
    requires k < |s|
    requires IndexSound(s, m)
    ensures IndexSound(RemoveAt(s, k), m - {s[k].name})
  {
    var s', m' := RemoveAt(s, k), m - {s[k].name};
    forall n | n in m'
      ensures exists j :: 0 <= j < |s'| && s'[j].name == n && s'[j].id == m'[n]
    {
      var j :| 0 <= j < |s| && s[j].name == n && s[j].id == m[n];
      assert j != k;
      if j < k {
        assert s'[j] == s[j];
      } else {
        assert s'[j - 1] == s[j];
      }
    }
  }

  /** Appending an item and mapping its name to its id keeps the index in agreement. */
  lemma AppendKeepsAgreement(s: seq<Item>, m: map<string, int>, it: Item)
    requires IndexAgrees(s, m)
    ensures IndexAgrees(s + [it], m[it.name := it.id])
  {
  }

  /** Away from the spliced item's name, the built index does not notice the splice. */
  lemma {:induction false} RemoveAtIndex(s: seq<Item>, k: nat)
    requires k < |s|
    ensures forall n :: n != s[k].name ==>
      (n in NameIndex(RemoveAt(s, k)) <==> n in NameIndex(s)) &&
      (n in NameIndex(s) ==> NameIndex(RemoveAt(s, k))[n] == NameIndex(s)[n])
  {
    var init, last := s[..|s| - 1], s[|s| - 1];
    if k == |s| - 1 {
      assert RemoveAt(s, k) == init;
    } else {
      RemoveAtIndex(init, k);
      var r := RemoveAt(s, k);
      assert r[..|r| - 1] == RemoveAt(init, k);
      assert r[|r| - 1] == last;
    }
  }

  /** Splicing out an item and deleting its name keeps the index in agreement. */
  lemma RemoveKeepsAgreement(s: seq<Item>, m: map<string, int>, k: nat)
    requires k < |s|
    requires IndexAgrees(s, m)
    ensures IndexAgrees(RemoveAt(s, k), m - {s[k].name})
  {
    RemoveAtIndex(s, k);
  }

  /**
   * Deleting an item drops its name from the index even when a namesake is
   * still listed, so the index no longer covers every item.
   */
  lemma RemoveOrphansNamesake(s: seq<Item>, m: map<string, int>, k: nat, j: nat)
    requires k < |s| && j < |s| && j != k
    requires s[j].name == s[k].name
    ensures !IndexComplete(RemoveAt(s, k), m - {s[k].name})
  {
    var s' := RemoveAt(s, k);
    var j' := if j < k then j else j - 1;
    assert s'[j'] == s[j];
  }

  /** Ids are dense when the i-th item has id i + 1, as after seeding and further adds. */
  predicate DenseIds(s: seq<Item>) {
    forall j :: 0 <= j < |s| ==> s[j].id == j + 1
  }

  /**
   * After deleting the item at position k from a list with dense ids, the
   * next id handed out (the new length plus one) is already taken exactly
   * when the deleted item was not the last one.
   */
  lemma NextIdCollides(s: seq<Item>, k: nat)
    requires DenseIds(s) && k < |s|
    ensures var s' := RemoveAt(s, k);
      (exists j :: 0 <= j < |s'| && s'[j].id == |s'| + 1) <==> k < |s| - 1
  {
    var s' := RemoveAt(s, k);
    if k < |s| - 1 {
      assert s'[|s'| - 1].id == |s'| + 1;
    }
  }

  // ---------------------------------------------------------------------
  // The catalog state and its handlers

  class Catalog {
    var items: seq<Item>
    var index: map<string, int>
    var log: seq<LogEntry>

    /**
     * The invariant every handler keeps: at each key it has, the index
     * agrees with the one built from the current items. Hence (by
     * `AgreementIsSound`) it never points at a missing item.
     */
    ghost predicate Valid()
      reads this
    {
      IndexAgrees(items, index)
    }

    /** Start-up: the seed items, the index built from them, an empty log. */
    constructor ()
      ensures Valid()
      ensures items == Seed && index == NameIndex(Seed) && log == []
    {
      items := Seed;
      index := map[];
      log := [];
      new;
      var i := 0;
      while i < |items|
        invariant 0 <= i <= |items| && items == Seed && log == []
        invariant index == NameIndex(items[..i])
      {
        assert items[..i + 1][..i] == items[..i];
        index := index[items[i].name := items[i].id];
        i := i + 1;
      }
      assert items[..i] == items;
    }

    /** The search handler: filter by lower-cased substring and log the lower-cased query. */
    method SearchItems(query: string) returns (results: seq<Item>)
      requires Valid()
      modifies this
      ensures Valid()
      ensures results == Matching(items, Lower(query))
      ensures items == old(items) && index == old(index)
      ensures log == old(log) + [Searched(Lower(query))]
    {
      var q := Lower(query);
      results := [];
      var i := 0;
      while i < |items|
        invariant 0 <= i <= |items|
        invariant results == Matching(items[..i], q)
      {
        assert items[..i + 1][..i] == items[..i];
        if Contains(Lower(items[i].name), q) {
          results := results + [items[i]];
        }
        i := i + 1;
      }
      assert items[..i] == items;
      log := log + [Searched(q)];
    }

    /** The add handler: a decoded item gets id `|items| + 1` and is appended. */
    method AddItem(body: Option<Item>) returns (r: Result<Item, Error>)
      requires Valid()
      modifies this
      ensures Valid()
      ensures body.None? ==>
        r == Failure(InvalidInput) && items == old(items) && index == old(index) && log == old(log)
      ensures body.Some? ==>
        var added := body.value.(id := |old(items)| + 1);
        && r == Success(added)
        && items == old(items) + [added]
        && index == old(index)[added.name := added.id]
        && log == old(log) + [Added(added.name)]
    {
      if body.None? {
        return Failure(InvalidInput);
      }
      var newItem := body.value.(id := |items| + 1);
      AppendKeepsAgreement(items, index, newItem);
      items := items + [newItem];
      index := index[newItem.name := newItem.id];
      log := log + [Added(newItem.name)];
      r := Success(newItem);
    }

    /** The delete handler: splice out the first item with the id and drop its name from the index. */
    method DeleteItem(id: Option<int>) returns (r: Outcome<Error>)
      requires Valid()
      modifies this
      ensures Valid()
      ensures id.None? ==>
        r == Fail(InvalidId) && items == old(items) && index == old(index) && log == old(log)
      ensures id.Some? && FirstWithId(old(items), id.value).None? ==>
        r == Fail(ItemNotFound) && items == old(items) && index == old(index) && log == old(log)
      ensures id.Some? && FirstWithId(old(items), id.value).Some? ==>
        var k := FirstWithId(old(items), id.value).value;
        && r == Pass
        && items == RemoveAt(old(items), k)
        && index == old(index) - {old(items)[k].name}
        && log == old(log) + [Deleted(id.value)]
    {
      if id.None? {
        return Fail(InvalidId);
      }
      var target := id.value;
      var found := false;
      var i := 0;
      while i < |items|
        invariant 0 <= i <= |items|
        invariant items == old(items) && index == old(index) && log == old(log)
        invariant forall j :: 0 <= j < i ==> items[j].id != target
      {
        var item := items[i];
        if item.id == target {
          RemoveKeepsAgreement(items, index, i);
          items := RemoveAt(items, i);
          index := index - {item.name};
          found := true;
          log := log + [Deleted(target)];
          break;
        }
        i := i + 1;
      }
      if !found {
        return Fail(ItemNotFound);
      }
      r := Pass;
    }

    /** The log handler: every entry, oldest first. */
    method GetActivityLog() returns (logs: seq<LogEntry>)
      ensures logs == log
    {
      logs := [];
      var i := 0;
      while i < |log|
        invariant 0 <= i <= |log|
        invariant logs == log[..i]
      {
        logs := logs + [log[i]];
        i := i + 1;
      }
    }
  }

  // ---------------------------------------------------------------------
  // The two quirks, replayed on the seed catalog

  /** Delete id 1, then add: the new item gets id 4, which "PS 4" already has. */
  method IdCollisionScenario() returns (added: Item, ids: seq<int>)
    ensures added.id == 4
    ensures ids == [2, 3, 4, 4]
  {
    var c := new Catalog();
    var d := c.DeleteItem(Some(1));
    var a := c.AddItem(Some(Item(0, "Keyboard", 350000)));
    added := a.value;
    ids := Ids(c.items);
  }

  /** Add a second "Laptop", then delete the first: a Laptop is still listed but the index has no Laptop key. */
  method StaleIndexScenario() returns (names: seq<string>, indexed: bool)
    ensures "Laptop" in names
    ensures !indexed
  {
    var c := new Catalog();
    var a := c.AddItem(Some(Item(0, "Laptop", 9000000)));
    var d := c.DeleteItem(Some(1));
    names := Names(c.items);
    indexed := "Laptop" in c.index;
  }
}

/** The `cafe` table as the handlers see it: rows by primary key, with the
    storage engine's key assignment, its unique `name` column and its
    exact-match filter. */
module Tables {
  import opened Wrappers
  import opened Cafes

  type Table = map<int, Cafe>

  /** Every row sits under its own id, ids are positive row ids, and no two
      rows share a name. */
  ghost predicate TableValid(t: Table): (b: bool)
    ensures b ==> forall k :: k in t ==> !NameTaken(t - {k}, t[k].name)
  {
    && (forall k :: k in t ==> t[k].id == k && k >= 1)
    && (forall j, k :: j in t && k in t && t[j].name == t[k].name ==> j == k)
  }

  /** Some row already carries this name. */
  predicate NameTaken(t: Table, name: string): (b: bool)
    ensures !b ==> forall k :: k in t ==> t[k].name != name
    ensures b ==> |t| > 0
  {
    exists k :: k in t && t[k].name == name
  }

  /** `m` is at least every member of `s`. */
  predicate UpperBound(m: int, s: set<int>)
  {
    forall k :: k in s ==> k <= m
  }

  /** A bound of `s - {x}` that is also at least `x` bounds `s`. */
  lemma BoundWithOneMore(s: set<int>, x: int, m: int)
    requires UpperBound(m, s - {x}) && x <= m
    ensures UpperBound(m, s)
  {
    forall k | k in s
      ensures k <= m
    {
      if k != x {
        assert k in s - {x};
      }
    }
  }

  /** A finite set of integers with a member has a largest member. */
  lemma {:induction false} MaxExists(s: set<int>)
    requires exists y :: y in s
    ensures exists m :: m in s && UpperBound(m, s)
  {
    var x :| x in s;
    var rest := s - {x};
    if y :| y in rest {
      MaxExists(rest);
      var m :| m in rest && UpperBound(m, rest);
      var top := if x <= m then m else x;
      BoundWithOneMore(s, x, top);
      assert top in s;
    } else {
      forall k | k in s
        ensures k <= x
      {
        assert k == x || k in rest;
      }
      assert UpperBound(x, s);
    }
  }

  function MaxKey(s: set<int>): (m: int)
    requires exists y :: y in s
    ensures m in s && forall k :: k in s ==> k <= m
  {
    MaxExists(s);
    var m :| m in s && UpperBound(m, s);
    m
  }

  /** The id the storage engine gives the next inserted row: one more than
      the largest id present, or 1 in an empty table. */
  function NextRowId(t: Table): (id: int)
    ensures id !in t
    ensures forall k :: k in t ==> k < id
    ensures (forall k :: k in t ==> k >= 1) ==> id >= 1
    ensures t == map[] ==> id == 1
  {
    if exists k :: k in t then MaxKey(t.Keys) + 1 else 1
  }

  /** `filter_by(location=loc)`: the rows whose location equals `loc`
      exactly; an absent `loc` compares as NULL and matches no row. */
  function FilterByLocation(t: Table, loc: Option<string>): (found: Table)
    ensures found.Keys <= t.Keys
    ensures forall k :: k in found ==> found[k] == t[k]
    ensures forall k :: k in t ==> (k in found <==> loc == Some(t[k].location))
  {
    map k | k in t && loc == Some(t[k].location) :: t[k]
  }

  /** Inserting a row under the next id with a name nobody has keeps the
      table valid and adds exactly one row. */
  lemma InsertKeepsValid(t: Table, c: Cafe)
    requires TableValid(t)
    requires c.id == NextRowId(t) && !NameTaken(t, c.name)
    ensures TableValid(t[c.id := c])
    ensures |t[c.id := c]| == |t| + 1
  {
  }

  /** Changing a row without touching its id or name keeps the table valid. */
  lemma ReplaceKeepsValid(t: Table, c: Cafe)
    requires TableValid(t)
    requires c.id in t && t[c.id].name == c.name
    ensures TableValid(t[c.id := c])
    ensures |t[c.id := c]| == |t|
  {
  }

  /** Removing a row keeps the table valid and removes exactly one row. */
  lemma RemoveKeepsValid(t: Table, id: int)
    requires TableValid(t)
    requires id in t
    ensures TableValid(t - {id})
    ensures |t - {id}| == |t| - 1
  {
  }
}

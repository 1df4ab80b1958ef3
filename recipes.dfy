/** Recipes and `RecipeRepository`: the visibility query and the bulk delete
    by owner. A finder hands back the position of the managed row. */
module Recipes {
  import opened Common

  datatype Recipe = Recipe(
    id: Uuid,
    owner: Uuid,
    brewMethod: Uuid,
    title: string,
    coffeeAmount: Option<string>,
    waterAmount: Option<string>,
    grindSize: Option<string>,
    brewTimeSeconds: Option<Int32>,
    waterTemperatureCelsius: Option<Int32>,
    rating: Option<Int32>,
    isGlobal: bool,
    createdAt: Time,
    updatedAt: Time,
    deletedAt: Option<Time>)

  /** The filter of `findVisibleByUserId`: not soft-deleted, and owned by the
      user or shared globally. */
  predicate VisibleTo(r: Recipe, user: Uuid)
  {
    r.deletedAt.None? && (r.owner == user || r.isGlobal)
  }

  ghost predicate UniqueIds(rows: seq<Recipe>)
  {
    forall i, j | 0 <= i < j < |rows| :: rows[i].id != rows[j].id
  }

  /** `findById`: the position of the row with this id, or empty. */
  function FindById(rows: seq<Recipe>, id: Uuid): (r: Option<nat>)
    ensures r.Some? ==> r.value < |rows| && rows[r.value].id == id
    ensures r.None? ==> forall j | 0 <= j < |rows| :: rows[j].id != id
  {
    if |rows| == 0 then None
    else match FindById(rows[..|rows| - 1], id)
      case Some(i) => Some(i)
      case None => if rows[|rows| - 1].id == id then Some(|rows| - 1) else None
  }

  /** The row `id` exists, is not soft-deleted and belongs to `user`: the only
      case in which update and delete get past their lookups. */
  predicate OwnedLive(rows: seq<Recipe>, id: Uuid, user: Uuid)
  {
    var i := FindById(rows, id);
    i.Some? && rows[i.value].deletedAt.None? && rows[i.value].owner == user
  }

  /** The visible rows in table order. */
  function VisibleRows(rows: seq<Recipe>, user: Uuid): (r: seq<Recipe>)
    ensures forall x :: x in r <==> x in rows && VisibleTo(x, user)
    ensures forall k | 0 <= k < |r| :: VisibleTo(r[k], user)
    ensures |r| <= |rows|
    ensures forall x :: multiset(r)[x] == if VisibleTo(x, user) then multiset(rows)[x] else 0
  {
    if |rows| == 0 then []
    else
      var init, last := rows[..|rows| - 1], rows[|rows| - 1];
      var prefix := VisibleRows(init, user);
      assert rows == init + [last];
      assert multiset(rows) == multiset(init) + multiset{last};
      assert forall x :: x in rows <==> x in init || x == last;
      if VisibleTo(last, user) then
        assert forall x :: x in prefix + [last] <==> x in prefix || x == last;
        prefix + [last]
      else prefix
  }

  /** `order by createdAt desc` */
  ghost predicate NewestFirst(s: seq<Recipe>)
  {
    forall k, l | 0 <= k < l < |s| :: s[k].createdAt >= s[l].createdAt
  }

  /** No recipe of `s` was created after `t`. */
  ghost predicate NoneNewerThan(s: seq<Recipe>, t: Time)
  {
    forall k | 0 <= k < |s| :: s[k].createdAt <= t
  }

  lemma ConsNewestFirst(h: Recipe, t: seq<Recipe>)
    requires NewestFirst(t) && NoneNewerThan(t, h.createdAt)
    ensures NewestFirst([h] + t)
  {
  }

  lemma HeadBoundsAll(s: seq<Recipe>)
    requires NewestFirst(s)
    ensures s != [] ==> NoneNewerThan(s, s[0].createdAt)
  {
  }

  lemma NoneNewerThanPermuted(r: seq<Recipe>, s: seq<Recipe>, x: Recipe, t: Time)
    requires multiset(r) == multiset(s) + multiset{x}
    requires NoneNewerThan(s, t) && x.createdAt <= t
    ensures NoneNewerThan(r, t)
  {
    forall l | 0 <= l < |r| ensures r[l].createdAt <= t {
      assert r[l] in multiset(r);
      if r[l] != x {
        assert r[l] in multiset(s);
      }
    }
  }

  /** Puts `x` into a newest-first sequence, before every recipe no newer than it. */
  function InsertNewestFirst(x: Recipe, s: seq<Recipe>): (r: seq<Recipe>)
    requires NewestFirst(s)
    ensures NewestFirst(r)
    ensures multiset(r) == multiset(s) + multiset{x}
  {
    if s == [] || x.createdAt >= s[0].createdAt then
      HeadBoundsAll(s);
      ConsNewestFirst(x, s);
      [x] + s
    else
      var rest := InsertNewestFirst(x, s[1..]);
      assert s == [s[0]] + s[1..];
      HeadBoundsAll(s);
      NoneNewerThanPermuted(rest, s[1..], x, s[0].createdAt);
      ConsNewestFirst(s[0], rest);
      [s[0]] + rest
  }

  /** Sorts newest first. */
  function SortNewestFirst(s: seq<Recipe>): (r: seq<Recipe>)
    ensures NewestFirst(r)
    ensures multiset(r) == multiset(s)
  {
    if s == [] then []
    else
      assert s == [s[0]] + s[1..];
      InsertNewestFirst(s[0], SortNewestFirst(s[1..]))
  }

  /** `findVisibleByUserId`: every visible row exactly as often as the table
      holds it, and nothing else, newest first. The order among recipes
      created at the same instant is not fixed by the query. */
  function FindVisibleByUserId(rows: seq<Recipe>, user: Uuid): (r: seq<Recipe>)
    ensures NewestFirst(r)
    ensures multiset(r) == multiset(VisibleRows(rows, user))
    ensures forall x :: multiset(r)[x] == if VisibleTo(x, user) then multiset(rows)[x] else 0
  {
    SortNewestFirst(VisibleRows(rows, user))
  }

  /** What the caller sees of the visibility query: no soft-deleted recipe, and
      a live recipe is listed exactly when the user owns it or it is global. */
  lemma {:induction false} VisibleIff(rows: seq<Recipe>, user: Uuid, x: Recipe)
    ensures x in FindVisibleByUserId(rows, user) <==> x in rows && VisibleTo(x, user)
    ensures x in FindVisibleByUserId(rows, user) ==> x.deletedAt.None?
  {
    var r := FindVisibleByUserId(rows, user);
    assert x in r <==> x in multiset(r);
    assert x in VisibleRows(rows, user) <==> x in multiset(VisibleRows(rows, user));
  }

  /** The table `deleteByOwner_Id` leaves: exactly the recipes of other owners,
      soft-deleted ones included. */
  function WithoutOwner(rows: seq<Recipe>, owner: Uuid): (r: seq<Recipe>)
    ensures forall x :: x in r <==> x in rows && x.owner != owner
    ensures UniqueIds(rows) ==> UniqueIds(r)
  {
    if |rows| == 0 then []
    else
      var prefix := WithoutOwner(rows[..|rows| - 1], owner);
      var last := rows[|rows| - 1];
      assert forall x | x in prefix :: x in rows[..|rows| - 1];
      if last.owner != owner then prefix + [last] else prefix
  }

  class RecipeRepository {
    /** The recipes table. */
    var rows: seq<Recipe>

    ghost predicate Valid()
      reads this
    {
      UniqueIds(rows)
    }

    constructor ()
      ensures Valid() && rows == []
    {
      rows := [];
    }

    /** `save` of a new recipe: the row is appended. */
    method Insert(r: Recipe)
      requires Valid() && forall j | 0 <= j < |rows| :: rows[j].id != r.id
      modifies this
      ensures Valid() && rows == old(rows) + [r]
    {
      rows := rows + [r];
    }

    /** `save` of the managed row at `i` after its setters ran; the id is kept. */
    method Update(i: nat, r: Recipe)
      requires Valid() && i < |rows| && r.id == rows[i].id
      modifies this
      ensures Valid() && rows == old(rows)[i := r]
    {
      rows := rows[i := r];
    }

    /** `deleteByOwner_Id` */
    method DeleteByOwnerId(owner: Uuid)
      requires Valid()
      modifies this
      ensures Valid() && rows == WithoutOwner(old(rows), owner)
    {
      rows := WithoutOwner(rows, owner);
    }
  }
}

/**
 * `BaseRecipeAttrViewSet.get_queryset` (shared by the tag and the ingredient
 * views) and the attribute `retrieve` lookup.
 *
 * The listing reads the `assigned_only` query parameter; only the exact text
 * `true` turns it on. When on, the table is joined with the recipes that
 * refer to each attribute (`recipe__isnull=False`), which yields one row per
 * referring recipe. The rows are then scoped to the requester, ordered by
 * name ascending (this `order_by('name')` replaces the `-name` ordering of the
 * view's base queryset) and made distinct.
 */
module AttrQuery {
  import opened Base
  import opened Text
  import opened Entities

  /** `query_params.get('assigned_only') == 'true'`. */
  predicate AssignedOnly(param: Option<string>)
  {
    param == Some("true")
  }

  /** Some recipe, of any owner, refers to the attribute. */
  predicate Referenced(a: Attr, recipes: seq<Recipe>, kind: AttrKind)
  {
    exists r :: r in recipes && a.id in Refs(r, kind)
  }

  /** The number of recipes that refer to the attribute. */
  function RefCount(a: Attr, recipes: seq<Recipe>, kind: AttrKind): (n: nat)
    ensures n > 0 <==> Referenced(a, recipes, kind)
  {
    if recipes == [] then 0
    else (if a.id in Refs(recipes[0], kind) then 1 else 0) + RefCount(a, recipes[1..], kind)
  }

  /** `filter(recipe__isnull=False)`: the inner join with the referring recipes. */
  function JoinRows(attrs: seq<Attr>, recipes: seq<Recipe>, kind: AttrKind): seq<Attr>
  {
    if attrs == [] then []
    else Repeat(attrs[0], RefCount(attrs[0], recipes, kind)) + JoinRows(attrs[1..], recipes, kind)
  }

  /** The join keeps exactly the attributes some recipe refers to. */
  lemma {:induction false} JoinRowsMembers(attrs: seq<Attr>, recipes: seq<Recipe>, kind: AttrKind)
    ensures forall x :: x in JoinRows(attrs, recipes, kind) <==> x in attrs && Referenced(x, recipes, kind)
  {
    if attrs != [] {
      JoinRowsMembers(attrs[1..], recipes, kind);
      var here := Repeat(attrs[0], RefCount(attrs[0], recipes, kind));
      assert forall x :: x in here <==> x == attrs[0] && |here| > 0;
      assert attrs == [attrs[0]] + attrs[1..];
    }
  }

  /** Without `distinct()` the join repeats an attribute once per referring recipe. */
  lemma {:induction false} JoinRowsCount(attrs: seq<Attr>, recipes: seq<Recipe>, kind: AttrKind, x: Attr)
    ensures multiset(JoinRows(attrs, recipes, kind))[x] == multiset(attrs)[x] * RefCount(x, recipes, kind)
  {
    if attrs != [] {
      var c := RefCount(x, recipes, kind);
      var m := multiset(attrs[1..])[x];
      JoinRowsCount(attrs[1..], recipes, kind, x);
      MultisetCons(attrs);
      var here := Repeat(attrs[0], RefCount(attrs[0], recipes, kind));
      var rest := JoinRows(attrs[1..], recipes, kind);
      assert JoinRows(attrs, recipes, kind) == here + rest;
      assert multiset(here + rest)[x] == multiset(here)[x] + multiset(rest)[x];
      RepeatCount(attrs[0], RefCount(attrs[0], recipes, kind), x);
      CountStep(x == attrs[0], multiset(attrs)[x], m, c, multiset(here)[x], multiset(rest)[x]);
    }
  }

  /** `filter(user=request.user)`. */
  function OwnedBy(rows: seq<Attr>, user: UserId): (r: seq<Attr>)
    ensures forall x :: x in r <==> x in rows && x.owner == user
  {
    if rows == [] then []
    else
      assert rows == [rows[0]] + rows[1..];
      (if rows[0].owner == user then [rows[0]] else []) + OwnedBy(rows[1..], user)
  }

  /** `distinct()`: every row once. */
  function Distinct(rows: seq<Attr>): (r: seq<Attr>)
    ensures forall x :: x in r <==> x in rows
    ensures NoDuplicates(r)
  {
    if rows == [] then []
    else
      var rest := Distinct(rows[1..]);
      if rows[0] in rest then rest else [rows[0]] + rest
  }

  /** Names never decrease along the sequence. */
  predicate SortedByName(s: seq<Attr>)
  {
    forall i, j :: 0 <= i < j < |s| ==> LexLe(s[i].name, s[j].name)
  }

  /** A row whose name is at most every name of a sorted sequence can go in front of it. */
  lemma PrependByName(h: Attr, t: seq<Attr>)
    requires SortedByName(t)
    requires forall j :: 0 <= j < |t| ==> LexLe(h.name, t[j].name)
    ensures SortedByName([h] + t)
  {
    var r := [h] + t;
    forall i, j | 0 <= i < j < |r| ensures LexLe(r[i].name, r[j].name) {
      assert r[j] == t[j - 1];
      if i > 0 {
        assert r[i] == t[i - 1];
      }
    }
  }

  /** In a sequence sorted by name, the head's name is the least. */
  lemma HeadNameLeast(s: seq<Attr>, y: Attr)
    requires SortedByName(s) && s != [] && y in s
    ensures LexLe(s[0].name, y.name)
  {
    var k :| 0 <= k < |s| && s[k] == y;
    if k == 0 {
      LexLeReflexive(y.name);
    }
  }

  function InsertByName(a: Attr, s: seq<Attr>): (r: seq<Attr>)
    requires SortedByName(s)
    ensures multiset(r) == multiset(s) + multiset{a}
    ensures SortedByName(r)
  {
    if s == [] then [a]
    else if LexLe(a.name, s[0].name) then
      forall j | 0 <= j < |s|
        ensures LexLe(a.name, s[j].name)
      {
        if j > 0 {
          LexLeTransitive(a.name, s[0].name, s[j].name);
        }
      }
      PrependByName(a, s);
      [a] + s
    else
      LexLeTotal(a.name, s[0].name);
      var rest := InsertByName(a, s[1..]);
      MultisetCons(s);
      forall j | 0 <= j < |rest|
        ensures LexLe(s[0].name, rest[j].name)
      {
        assert rest[j] in multiset(rest);
        if rest[j] != a {
          assert rest[j] in s;
          HeadNameLeast(s, rest[j]);
        }
      }
      PrependByName(s[0], rest);
      [s[0]] + rest
  }

  /** `order_by('name')`: ascending by name, a permutation of the rows. */
  function SortByName(s: seq<Attr>): (r: seq<Attr>)
    ensures multiset(r) == multiset(s)
    ensures SortedByName(r)
  {
    if s == [] then []
    else
      assert s == [s[0]] + s[1..];
      InsertByName(s[0], SortByName(s[1..]))
  }

  /** The rows of the query before ordering and `distinct()`. */
  function ScopedRows(attrs: seq<Attr>, recipes: seq<Recipe>, kind: AttrKind, user: UserId,
                      assignedOnly: Option<string>): seq<Attr>
  {
    OwnedBy(if AssignedOnly(assignedOnly) then JoinRows(attrs, recipes, kind) else attrs, user)
  }

  /** The tag (or ingredient) list the requester receives. */
  function ListAttributes(attrs: seq<Attr>, recipes: seq<Recipe>, kind: AttrKind, user: UserId,
                          assignedOnly: Option<string>): (r: seq<Attr>)
    ensures forall x :: x in r <==>
      x in attrs && x.owner == user && (AssignedOnly(assignedOnly) ==> Referenced(x, recipes, kind))
    ensures NoDuplicates(r)
    ensures SortedByName(r)
  {
    JoinRowsMembers(attrs, recipes, kind);
    var distinct := Distinct(ScopedRows(attrs, recipes, kind, user, assignedOnly));
    var sorted := SortByName(distinct);
    assert forall x :: x in sorted <==> x in multiset(distinct);
    forall i, j | 0 <= i < j < |sorted|
      ensures sorted[i] != sorted[j]
    {
      SortedKeepsNoDuplicates(distinct, sorted, i, j);
    }
    sorted
  }

  /** A permutation of a duplicate-free sequence is duplicate-free. */
  lemma SortedKeepsNoDuplicates(s: seq<Attr>, t: seq<Attr>, i: int, j: int)
    requires NoDuplicates(s) && multiset(t) == multiset(s)
    requires 0 <= i < j < |t|
    ensures t[i] != t[j]
  {
    if t[i] == t[j] {
      var x := t[i];
      assert multiset(t)[x] >= 2 by {
        assert t == t[..i] + [x] + t[i + 1..j] + [x] + t[j + 1..];
      }
      CountAtMostOne(s, x);
      assert false;
    }
  }

  lemma {:induction false} CountAtMostOne(s: seq<Attr>, x: Attr)
    requires NoDuplicates(s)
    ensures multiset(s)[x] <= 1
  {
    if s != [] {
      assert s == [s[0]] + s[1..];
      CountAtMostOne(s[1..], x);
      if s[0] == x {
        assert x !in s[1..];
      }
    }
  }

  // ---------------------------------------------------------------- properties of the listing

  /** With the flag on, the list keeps exactly the unrestricted list's attributes that some recipe
      (of any owner) refers to; so it is a subset of the unrestricted list. */
  lemma AssignedOnlyRestricts(attrs: seq<Attr>, recipes: seq<Recipe>, kind: AttrKind, user: UserId)
    ensures forall x :: x in ListAttributes(attrs, recipes, kind, user, Some("true")) <==>
      x in ListAttributes(attrs, recipes, kind, user, None) && Referenced(x, recipes, kind)
  {
  }

  /** Any value other than the exact text `true`, or no value, restricts nothing. */
  lemma OtherFlagValuesIgnored(attrs: seq<Attr>, recipes: seq<Recipe>, kind: AttrKind, user: UserId,
                               param: Option<string>)
    requires param != Some("true")
    ensures ListAttributes(attrs, recipes, kind, user, param) == ListAttributes(attrs, recipes, kind, user, None)
  {
  }

  /** The join repeats an attribute once per referring recipe; the listing still holds it once. */
  lemma ListedOnce(attrs: seq<Attr>, recipes: seq<Recipe>, kind: AttrKind, user: UserId,
                   assignedOnly: Option<string>, x: Attr)
    requires x in attrs && x.owner == user && Referenced(x, recipes, kind)
    ensures multiset(JoinRows(attrs, recipes, kind))[x] >= RefCount(x, recipes, kind)
    ensures multiset(ListAttributes(attrs, recipes, kind, user, assignedOnly))[x] == 1
  {
    var r := ListAttributes(attrs, recipes, kind, user, assignedOnly);
    JoinRowsCount(attrs, recipes, kind, x);
    assert multiset(attrs)[x] >= 1;
    MulMonotone(multiset(attrs)[x], RefCount(x, recipes, kind));
    CountAtMostOne(r, x);
  }

  lemma MulMonotone(m: nat, c: nat)
    requires m >= 1
    ensures m * c >= c
  {
  }

  /** In a sequence whose every element is `a` or `b`, the two counts add up to the length. */
  lemma {:induction false} CountTwo(r: seq<Attr>, a: Attr, b: Attr)
    requires a != b
    requires forall x :: x in r ==> x == a || x == b
    ensures |r| == multiset(r)[a] + multiset(r)[b]
  {
    if r != [] {
      assert r == [r[0]] + r[1..];
      assert r[0] in r;
      assert forall x :: x in r[1..] ==> x in r;
      CountTwo(r[1..], a, b);
    }
  }

  /** A duplicate-free sequence whose only member is `a` is `[a]`. */
  lemma OnlyMember(r: seq<Attr>, a: Attr)
    requires NoDuplicates(r)
    requires forall x :: x in r <==> x == a
    ensures r == [a]
  {
    var other := Attr(a.id + 1, a.owner, a.name);
    CountTwo(r, a, other);
    CountAtMostOne(r, a);
    assert a in r && other !in r;
    assert other !in multiset(r);
    assert r == [r[0]];
  }

  /** A duplicate-free, name-sorted sequence holding exactly `d` and `v`, where `v`'s name does not
      come first, is `[d, v]`. */
  lemma TwoMembers(r: seq<Attr>, d: Attr, v: Attr)
    requires NoDuplicates(r) && SortedByName(r)
    requires forall x :: x in r <==> x == d || x == v
    requires d != v && !LexLe(v.name, d.name)
    ensures r == [d, v]
  {
    CountTwo(r, d, v);
    CountAtMostOne(r, d);
    CountAtMostOne(r, v);
    assert d in r && v in r;
    assert d in multiset(r) && v in multiset(r);
    assert |r| == 2;
    assert r[0] in r && r[1] in r && r[0] != r[1];
    assert r[0] != v by {
      assert LexLe(r[0].name, r[1].name);
    }
  }

  /** Two recipes refer to the same tag: the assigned-only list holds that tag once and leaves out the
      owner's unreferenced tag. */
  lemma AssignedTagListedOnce()
    ensures var tag1 := Attr(1, 10, "Tag1");
      var tag2 := Attr(2, 10, "Tag2");
      var recipe1 := Recipe(1, 10, "A recipe", {1}, {}, None);
      var recipe2 := Recipe(2, 10, "A recipe", {1}, {}, None);
      ListAttributes([tag1, tag2], [recipe1, recipe2], TagKind, 10, Some("true")) == [tag1]
  {
    var tag1 := Attr(1, 10, "Tag1");
    var tag2 := Attr(2, 10, "Tag2");
    var recipes := [Recipe(1, 10, "A recipe", {1}, {}, None), Recipe(2, 10, "A recipe", {1}, {}, None)];
    assert Referenced(tag1, recipes, TagKind) by {
      assert 1 in Refs(recipes[0], TagKind);
    }
    assert !Referenced(tag2, recipes, TagKind) by {
      forall q | q in recipes
        ensures 2 !in Refs(q, TagKind)
      {
      }
    }
    OnlyReferencedListed(tag1, tag2, recipes, TagKind, 10);
  }

  /** Of two of the requester's attributes, only the referenced one is listed with the flag set. */
  lemma OnlyReferencedListed(used: Attr, unused: Attr, recipes: seq<Recipe>, kind: AttrKind, user: UserId)
    requires used.owner == user && Referenced(used, recipes, kind) && !Referenced(unused, recipes, kind)
    ensures ListAttributes([used, unused], recipes, kind, user, Some("true")) == [used]
  {
    var r := ListAttributes([used, unused], recipes, kind, user, Some("true"));
    assert AssignedOnly(Some("true"));
    forall x ensures x in r <==> x == used {
      assert x in [used, unused] <==> x == used || x == unused;
    }
    OnlyMember(r, used);
  }

  /** The listing is in ascending name order: "Dessert" before "Vegan". The view's base queryset and
      the tests that build the expected list from it use descending order instead. */
  lemma NamesAscending()
    ensures var vegan := Attr(1, 10, "Vegan");
      var dessert := Attr(2, 10, "Dessert");
      ListAttributes([vegan, dessert], [], TagKind, 10, None) == [dessert, vegan]
  {
    var vegan := Attr(1, 10, "Vegan");
    var dessert := Attr(2, 10, "Dessert");
    var r := ListAttributes([vegan, dessert], [], TagKind, 10, None);
    assert !LexLe(vegan.name, dessert.name);
    TwoMembers(r, dessert, vegan);
  }

  /** Creating an attribute: the new row shows in its owner's unrestricted list and leaves every other
      user's list, with any flag, exactly as it was. */
  lemma CreateVisibleOnlyToOwner(attrs: seq<Attr>, recipes: seq<Recipe>, kind: AttrKind, a: Attr,
                                 user: UserId, assignedOnly: Option<string>)
    ensures a in ListAttributes(attrs + [a], recipes, kind, a.owner, None)
    ensures user != a.owner ==>
      ListAttributes(attrs + [a], recipes, kind, user, assignedOnly)
        == ListAttributes(attrs, recipes, kind, user, assignedOnly)
  {
    if user != a.owner {
      ScopedRowsOtherOwner(attrs, recipes, kind, a, user, assignedOnly);
    }
  }

  lemma ScopedRowsOtherOwner(attrs: seq<Attr>, recipes: seq<Recipe>, kind: AttrKind, a: Attr,
                             user: UserId, assignedOnly: Option<string>)
    requires user != a.owner
    ensures ScopedRows(attrs + [a], recipes, kind, user, assignedOnly) == ScopedRows(attrs, recipes, kind, user, assignedOnly)
  {
    if AssignedOnly(assignedOnly) {
      JoinRowsAppend(attrs, a, recipes, kind);
      OwnedByAppendForeign(JoinRows(attrs, recipes, kind), Repeat(a, RefCount(a, recipes, kind)), user);
    } else {
      OwnedByAppendForeign(attrs, [a], user);
    }
  }

  /** Rows of other users appended to a table do not show in the requester's part of it. */
  lemma OwnedByAppendForeign(s: seq<Attr>, t: seq<Attr>, user: UserId)
    requires forall x :: x in t ==> x.owner != user
    ensures OwnedBy(s + t, user) == OwnedBy(s, user)
  {
    OwnedByAppend(s, t, user);
    OwnedByNone(t, user);
    AppendEmpty(OwnedBy(s, user));
  }

  lemma {:induction false} OwnedByNone(rows: seq<Attr>, user: UserId)
    requires forall x :: x in rows ==> x.owner != user
    ensures OwnedBy(rows, user) == []
  {
    if rows != [] {
      assert rows[0] in rows;
      assert forall x :: x in rows[1..] ==> x in rows;
      OwnedByNone(rows[1..], user);
    }
  }

  lemma {:induction false} JoinRowsAppend(attrs: seq<Attr>, a: Attr, recipes: seq<Recipe>, kind: AttrKind)
    ensures JoinRows(attrs + [a], recipes, kind)
         == JoinRows(attrs, recipes, kind) + Repeat(a, RefCount(a, recipes, kind))
  {
    var t := Repeat(a, RefCount(a, recipes, kind));
    if attrs == [] {
      assert attrs + [a] == [a];
      assert JoinRows([a], recipes, kind) == t + JoinRows([], recipes, kind);
      AppendEmpty(t);
    } else {
      var s := attrs + [a];
      assert s[0] == attrs[0] && s[1..] == attrs[1..] + [a];
      var h := Repeat(attrs[0], RefCount(attrs[0], recipes, kind));
      var mid := JoinRows(attrs[1..], recipes, kind);
      assert JoinRows(s, recipes, kind) == h + JoinRows(attrs[1..] + [a], recipes, kind);
      JoinRowsAppend(attrs[1..], a, recipes, kind);
      assert JoinRows(attrs, recipes, kind) == h + mid;
      AppendAssoc(h, mid, t);
    }
  }

  lemma {:induction false} OwnedByAppend(s: seq<Attr>, t: seq<Attr>, user: UserId)
    ensures OwnedBy(s + t, user) == OwnedBy(s, user) + OwnedBy(t, user)
  {
    if s != [] {
      assert (s + t)[0] == s[0];
      assert (s + t)[1..] == s[1..] + t;
      OwnedByAppend(s[1..], t, user);
      var head := if s[0].owner == user then [s[0]] else [];
      assert OwnedBy(s + t, user) == head + OwnedBy(s[1..] + t, user);
      assert OwnedBy(s, user) == head + OwnedBy(s[1..], user);
    } else {
      assert s + t == t;
    }
  }

  // ---------------------------------------------------------------- retrieve

  /** `retrieve`: `get_object_or_404(self.queryset, pk=pk)` over the whole table, not the scoped
      listing. `None` is the 404 response. */
  function RetrieveAttr(attrs: seq<Attr>, pk: int): (r: Option<Attr>)
    ensures r.Some? <==> pk in AttrIds(attrs)
    ensures r.Some? ==> r.value in attrs && r.value.id == pk
  {
    if attrs == [] then None
    else if attrs[0].id == pk then Some(attrs[0])
    else RetrieveAttr(attrs[1..], pk)
  }

  /** The lookup takes no requester: an attribute another user owns, which the requester's listing
      leaves out, is still returned by its id. */
  lemma RetrieveIgnoresOwner(attrs: seq<Attr>, recipes: seq<Recipe>, kind: AttrKind, user: UserId,
                             assignedOnly: Option<string>, a: Attr)
    requires UniqueAttrIds(attrs) && a in attrs && a.owner != user
    ensures RetrieveAttr(attrs, a.id) == Some(a)
    ensures a !in ListAttributes(attrs, recipes, kind, user, assignedOnly)
  {
    var r := RetrieveAttr(attrs, a.id);
    var i :| 0 <= i < |attrs| && attrs[i] == r.value;
    var j :| 0 <= j < |attrs| && attrs[j] == a;
    assert i == j;
  }
}

/** What the food handler (handlers/foods.go) computes: case-insensitive name
    and category matching, the visibility rule, the catalog listing, the
    lookup by id, and the records that create and update write. */
module Foods {
  import opened Collections
  import opened Models

  /** ASCII lower-casing of one character. */
  function LowerChar(c: char): char
  {
    if 'A' <= c <= 'Z' then (c as int + 32) as char else c
  }

  /** `strings.ToLower`, restricted to ASCII letters. */
  function ToLower(s: string): (r: string)
    ensures |r| == |s|
    ensures forall i :: 0 <= i < |s| ==> r[i] == LowerChar(s[i])
  {
    seq(|s|, i requires 0 <= i < |s| => LowerChar(s[i]))
  }

  /** `strings.Contains`: `sub` is a prefix of some suffix of `s`. */
  predicate Contains(s: string, sub: string)
  {
    sub <= s || (|s| > 0 && Contains(s[1..], sub))
  }

  /** `sub` stands in `s` starting at position `i`. */
  ghost predicate OccursAt(s: string, sub: string, i: int)
  {
    0 <= i && i + |sub| <= |s| && s[i..i + |sub|] == sub
  }

  /** An occurrence past the first position is an occurrence in the tail. */
  lemma OccursInTail(s: string, sub: string, i: int)
    requires 0 < i && OccursAt(s, sub, i)
    ensures OccursAt(s[1..], sub, i - 1)
  {
    var tail := s[1..];
    assert forall k :: i <= k < i + |sub| ==> s[k] == tail[k - 1];
    assert s[i..i + |sub|] == tail[i - 1..i - 1 + |sub|];
  }

  /** An occurrence in the tail is an occurrence one position further on. */
  lemma OccursFromTail(s: string, sub: string, i: int)
    requires |s| > 0 && OccursAt(s[1..], sub, i)
    ensures OccursAt(s, sub, i + 1)
  {
    assert s[i + 1..i + 1 + |sub|] == s[1..][i..i + |sub|];
  }

  /** `Contains` finds `sub` exactly when it stands at some position of `s`. */
  lemma {:induction false} ContainsIff(s: string, sub: string)
    ensures Contains(s, sub) <==> exists i :: OccursAt(s, sub, i)
  {
    if sub <= s {
      assert OccursAt(s, sub, 0);
    } else if |s| == 0 {
      assert forall i :: !OccursAt(s, sub, i);
    } else {
      ContainsIff(s[1..], sub);
      forall i | 0 < i && OccursAt(s, sub, i)
        ensures OccursAt(s[1..], sub, i - 1)
      {
        OccursInTail(s, sub, i);
      }
      if Contains(s[1..], sub) {
        var i :| OccursAt(s[1..], sub, i);
        OccursFromTail(s, sub, i);
      }
    }
  }

  /** `strings.EqualFold`, restricted to ASCII letters. */
  predicate EqualFold(a: string, b: string)
  {
    ToLower(a) == ToLower(b)
  }

  /** Two characters that are equal, or an ASCII letter and its other case. */
  predicate CaseVariants(x: char, y: char)
  {
    x == y
    || ('A' <= x <= 'Z' && y as int == x as int + 32)
    || ('A' <= y <= 'Z' && x as int == y as int + 32)
  }

  lemma LowerCharSame(x: char, y: char)
    ensures LowerChar(x) == LowerChar(y) <==> CaseVariants(x, y)
  {
  }

  /** Case-insensitive equality, stated without lower-casing: the strings
      have the same length and agree position by position up to the case of
      ASCII letters. */
  lemma {:induction false} EqualFoldIff(a: string, b: string)
    ensures EqualFold(a, b) <==> |a| == |b| && forall i :: 0 <= i < |a| ==> CaseVariants(a[i], b[i])
  {
    forall i | 0 <= i < |a| && i < |b|
      ensures ToLower(a)[i] == ToLower(b)[i] <==> CaseVariants(a[i], b[i])
    {
      LowerCharSame(a[i], b[i]);
    }
    if |a| == |b| && forall i :: 0 <= i < |a| ==> CaseVariants(a[i], b[i]) {
      assert ToLower(a) == ToLower(b);
    }
  }

  /** A lower-cased string has no upper-case ASCII letter left. */
  lemma ToLowerHasNoUpper(s: string)
    ensures forall i :: 0 <= i < |ToLower(s)| ==> !('A' <= ToLower(s)[i] <= 'Z')
  {
  }

  /** Lower-casing twice is lower-casing once. */
  lemma ToLowerIdempotent(s: string)
    ensures ToLower(ToLower(s)) == ToLower(s)
  {
    assert forall i :: 0 <= i < |s| ==> ToLower(ToLower(s))[i] == ToLower(s)[i];
  }

  /** A system food (empty owner) or one of the caller's own. */
  predicate Visible(f: Food, uid: string)
  {
    f.userId == "" || f.userId == uid
  }

  predicate NameMatches(f: Food, name: string)
  {
    name == "" || Contains(ToLower(f.name), ToLower(name))
  }

  predicate CategoryMatches(f: Food, category: string)
  {
    category == "" || EqualFold(f.category, category)
  }

  predicate Listed(f: Food, uid: string, name: string, category: string)
  {
    Visible(f, uid) && NameMatches(f, name) && CategoryMatches(f, category)
  }

  /** The catalog listing: exactly the visible foods that pass both filters,
      in stored order. */
  function ListFoods(foods: seq<Food>, uid: string, name: string, category: string): (r: seq<Food>)
    ensures forall k :: 0 <= k < |r| ==> r[k] in foods && Listed(r[k], uid, name, category)
    ensures forall k :: 0 <= k < |foods| ==> (foods[k] in r <==> Listed(foods[k], uid, name, category))
    ensures IsSubsequence(r, foods)
  {
    FilterIsSubsequence(foods, (f: Food) => Listed(f, uid, name, category));
    Filter(foods, (f: Food) => Listed(f, uid, name, category))
  }

  /** The listing keeps every copy of a listed food and none of the others. */
  lemma ListFoodsCounts(foods: seq<Food>, uid: string, name: string, category: string)
    ensures forall f :: multiset(ListFoods(foods, uid, name, category))[f]
                        == if Listed(f, uid, name, category) then multiset(foods)[f] else 0
  {
    FilterCounts(foods, (f: Food) => Listed(f, uid, name, category));
  }

  lemma ListFoodsSnoc(foods: seq<Food>, f: Food, uid: string, name: string, category: string)
    ensures ListFoods(foods + [f], uid, name, category)
         == ListFoods(foods, uid, name, category) + (if Listed(f, uid, name, category) then [f] else [])
  {
    FilterSnoc(foods, f, (g: Food) => Listed(g, uid, name, category));
  }

  /** The position of the first food with the given id. */
  function FindFood(foods: seq<Food>, id: string): (r: Option<nat>)
    ensures r.Some? ==> r.value < |foods| && foods[r.value].id == id
    ensures r.Some? ==> forall j :: 0 <= j < r.value ==> foods[j].id != id
    ensures r.None? <==> forall j :: 0 <= j < |foods| ==> foods[j].id != id
  {
    FirstIndex(foods, (f: Food) => f.id == id)
  }

  /** The food CreateFood appends, owned by the caller. */
  function NewFood(req: CreateFoodRequest, id: string, uid: string, now: Time): (r: Food)
    ensures r.id == id && r.userId == uid && r.createdAt == now
  {
    Food(id, uid, req.name, req.calories, req.protein, req.carbs, req.fats,
         req.servingSize, req.servingUnit, req.category, now)
  }

  /** `f` with the eight request fields written over it: identity, owner and
      creation time stay those of `f`. */
  function UpdatedFood(f: Food, req: UpdateFoodRequest): (r: Food)
    ensures r.id == f.id && r.userId == f.userId && r.createdAt == f.createdAt
    ensures NewFood(req, r.id, r.userId, r.createdAt) == r
  {
    f.(name := req.name, calories := req.calories, protein := req.protein,
       carbs := req.carbs, fats := req.fats, servingSize := req.servingSize,
       servingUnit := req.servingUnit, category := req.category)
  }
}

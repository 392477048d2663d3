/** The restaurant-menu store of the single-screen app: the menu item
    record, the form state, adding a dish with validation and removing a
    dish by id. */
module Menu {
  import opened Wrappers
  import opened Text
  import opened NumberParse

  /** The closed set of courses a dish belongs to. */
  datatype Course = Starter | Main | Dessert

  /** One dish on the menu; `id` is whatever the caller supplied when the
      dish was added. */
  datatype MenuItem = MenuItem(id: int, name: string, description: string, course: Course, price: real)

  /** What every dish that went through validation satisfies: a name and
      a description, both non-empty and trimmed, and a positive price. */
  predicate WellFormed(item: MenuItem)
  {
    item.name != [] && item.description != [] && item.price > 0.0 &&
    Trimmed(item.name) && Trimmed(item.description)
  }

  predicate AllWellFormed(items: seq<MenuItem>)
  {
    forall k :: 0 <= k < |items| ==> WellFormed(items[k])
  }

  predicate HasId(items: seq<MenuItem>, id: int)
  {
    exists k :: 0 <= k < |items| && items[k].id == id
  }

  /** No two dishes share an id. */
  predicate IdsDistinct(items: seq<MenuItem>)
  {
    forall j, k :: 0 <= j < k < |items| ==> items[j].id != items[k].id
  }

  /** The three validation alerts, in the order they are checked. */
  datatype ValidationError = MissingName | MissingDescription | InvalidPrice

  /** What pressing "Add Dish" does: the dish that was appended, or the
      alert that was raised instead. */
  datatype AddOutcome = Added(item: MenuItem) | Rejected(reason: ValidationError)

  /** The price test: parseFloat gave a number and it is above zero. */
  predicate AcceptablePrice(parsed: Option<real>)
  {
    parsed.Some? && parsed.value > 0.0
  }

  /** The checks of handleAddItem, in their order: the name, then the
      description, then the price; the first that fails is reported. When
      all pass, the dish is built from the trimmed texts, the selected
      course and the parsed price. */
  function Validate(name: string, description: string, course: Course, priceText: string, id: int): (r: AddOutcome)
    ensures Trim(name) == [] ==> r == Rejected(MissingName)
    ensures Trim(name) != [] && Trim(description) == [] ==> r == Rejected(MissingDescription)
    ensures Trim(name) != [] && Trim(description) != [] && !AcceptablePrice(ParseFloat(priceText)) ==>
              r == Rejected(InvalidPrice)
    ensures Trim(name) != [] && Trim(description) != [] && AcceptablePrice(ParseFloat(priceText)) ==>
              r.Added?
    ensures r.Added? ==>
              AcceptablePrice(ParseFloat(priceText)) &&
              r.item == MenuItem(id, Trim(name), Trim(description), course, ParseFloat(priceText).value) &&
              WellFormed(r.item)
  {
    var trimmedName := Trim(name);
    if trimmedName == [] then Rejected(MissingName)
    else
      var trimmedDescription := Trim(description);
      if trimmedDescription == [] then Rejected(MissingDescription)
      else
        var price := ParseFloat(priceText);
        if price.None? || price.value <= 0.0 then Rejected(InvalidPrice)
        else Added(MenuItem(id, trimmedName, trimmedDescription, course, price.value))
  }

  /** A whole-number price is accepted exactly when it is not zero; "0"
      in particular is rejected. */
  lemma {:induction false} NumeralPriceAccepted(n: nat, rest: string)
    requires rest == [] || (!IsDigit(rest[0]) && rest[0] != '.' && rest[0] != 'e' && rest[0] != 'E')
    ensures AcceptablePrice(ParseFloat(NatToDigits(n) + rest)) <==> n > 0
  {
    ParseNumeralPrefix(n, rest);
  }

  /** A price typed with a leading minus sign is always rejected: it is
      either NaN or a number that is not above zero. */
  lemma {:induction false} MinusPriceRejected(text: string)
    ensures !AcceptablePrice(ParseFloat("-" + text))
  {
    ParseMinusNotPositive(text);
  }

  /** The validation outcome in terms of the raw form texts: a name or
      description of white space only is missing, and a dish is added
      exactly when all three checks pass. */
  lemma {:induction false} ValidateOutcome(name: string, description: string, course: Course, priceText: string, id: int)
    ensures var r := Validate(name, description, course, priceText, id);
            (r == Rejected(MissingName) <==> AllWhiteSpace(name)) &&
            (r == Rejected(MissingDescription) <==> !AllWhiteSpace(name) && AllWhiteSpace(description)) &&
            (r == Rejected(InvalidPrice) <==>
               !AllWhiteSpace(name) && !AllWhiteSpace(description) && !AcceptablePrice(ParseFloat(priceText))) &&
            (r.Added? <==>
               !AllWhiteSpace(name) && !AllWhiteSpace(description) && AcceptablePrice(ParseFloat(priceText)))
  {
    TrimEmptyIff(name);
    TrimEmptyIff(description);
  }

  /** The remove filter: every dish whose id differs from `id`, in their
      original order. */
  function WithoutId(items: seq<MenuItem>, id: int): (r: seq<MenuItem>)
    ensures |r| <= |items|
    ensures !HasId(r, id)
    ensures !HasId(items, id) ==> r == items
  {
    if items == [] then
      []
    else
      var last := items[|items| - 1];
      var front := items[..|items| - 1];
      assert items == front + [last];
      var r := WithoutId(front, id) + (if last.id == id then [] else [last]);
      assert !HasId(items, id) ==> !HasId(front, id);
      r
  }

  /** The filter keeps exactly the dishes with a different id. */
  lemma {:induction false} WithoutIdMembers(items: seq<MenuItem>, id: int)
    ensures forall x :: x in WithoutId(items, id) <==> x in items && x.id != id
  {
    if items != [] {
      var front := items[..|items| - 1];
      assert items == front + [items[|items| - 1]];
      WithoutIdMembers(front, id);
    }
  }

  /** The filter respects order: filtering a concatenation filters each part. */
  lemma {:induction false} WithoutIdConcat(a: seq<MenuItem>, b: seq<MenuItem>, id: int)
    ensures WithoutId(a + b, id) == WithoutId(a, id) + WithoutId(b, id)
  {
    if b == [] {
      assert a + b == a;
    } else {
      var front := b[..|b| - 1];
      assert (a + b)[..|a + b| - 1] == a + front;
      assert (a + b)[|a + b| - 1] == b[|b| - 1];
      WithoutIdConcat(a, front, id);
    }
  }

  /** With distinct ids, removing the id of the k-th dish removes exactly
      that dish and keeps every other one in place. */
  lemma {:induction false} RemovePresentDistinct(items: seq<MenuItem>, k: nat)
    requires IdsDistinct(items) && k < |items|
    ensures WithoutId(items, items[k].id) == items[..k] + items[k + 1..]
    ensures |WithoutId(items, items[k].id)| == |items| - 1
  {
    var id := items[k].id;
    var before, after := items[..k], items[k + 1..];
    assert items == before + [items[k]] + after;
    assert !HasId(before, id) by {
      forall j | 0 <= j < |before| ensures before[j].id != id { assert before[j] == items[j]; }
    }
    assert !HasId(after, id) by {
      forall j | 0 <= j < |after| ensures after[j].id != id { assert after[j] == items[k + 1 + j]; }
    }
    WithoutIdAround(before, items[k], after);
  }

  /** A dish between two stretches without its id is the only one removed. */
  lemma {:induction false} WithoutIdAround(before: seq<MenuItem>, x: MenuItem, after: seq<MenuItem>)
    requires !HasId(before, x.id) && !HasId(after, x.id)
    ensures WithoutId(before + [x] + after, x.id) == before + after
  {
    var id := x.id;
    WithoutIdConcat(before + [x], after, id);
    WithoutIdConcat(before, [x], id);
    assert WithoutId(before, id) == before;
    assert WithoutId(after, id) == after;
    assert [x][..0] == [];
    assert WithoutId([x], id) == [];
    assert WithoutId(before + [x], id) == before;
  }

  /** Removal keeps ids distinct. */
  lemma {:induction false} WithoutIdDistinct(items: seq<MenuItem>, id: int)
    ensures IdsDistinct(items) ==> IdsDistinct(WithoutId(items, id))
  {
    if items != [] && IdsDistinct(items) {
      var last := items[|items| - 1];
      var front := items[..|items| - 1];
      assert IdsDistinct(front) by {
        forall j, k | 0 <= j < k < |front| ensures front[j].id != front[k].id {
          assert front[j] == items[j] && front[k] == items[k];
        }
      }
      WithoutIdDistinct(front, id);
      var w := WithoutId(front, id);
      if last.id != id {
        WithoutIdMembers(front, id);
        var r := w + [last];
        forall j, k | 0 <= j < k < |r| ensures r[j].id != r[k].id {
          if k < |w| {
            assert r[j] == w[j] && r[k] == w[k];
          } else {
            assert r[j] == w[j] && r[k] == last;
            assert w[j] in front;
            var i :| 0 <= i < |front| && front[i] == w[j];
            assert items[i] == w[j];
          }
        }
      }
    }
  }

  /** Removing an id a second time changes nothing. */
  lemma {:induction false} RemoveTwice(items: seq<MenuItem>, id: int)
    ensures WithoutId(WithoutId(items, id), id) == WithoutId(items, id)
  {
  }

  /** Removal keeps every surviving dish well formed. */
  lemma {:induction false} RemoveKeepsWellFormed(items: seq<MenuItem>, id: int)
    ensures AllWellFormed(items) ==> AllWellFormed(WithoutId(items, id))
  {
    if AllWellFormed(items) {
      var r := WithoutId(items, id);
      WithoutIdMembers(items, id);
      forall k | 0 <= k < |r| ensures WellFormed(r[k]) {
        assert r[k] in items;
      }
    }
  }

  /** Appending a validated dish keeps the menu well formed, and keeps ids
      distinct when the new id is not yet taken. */
  lemma {:induction false} AppendKeepsInvariants(items: seq<MenuItem>, item: MenuItem)
    requires WellFormed(item)
    ensures AllWellFormed(items) ==> AllWellFormed(items + [item])
    ensures IdsDistinct(items) && !HasId(items, item.id) ==> IdsDistinct(items + [item])
  {
    var r := items + [item];
    if IdsDistinct(items) && !HasId(items, item.id) {
      forall j, k | 0 <= j < k < |r| ensures r[j].id != r[k].id {
        if k < |items| { assert r[j] == items[j] && r[k] == items[k]; }
        else { assert r[j] == items[j] && r[k] == item; }
      }
    }
  }

  /** The app's state: the four form fields and the menu. */
  class App {
    var dishName: string
    var description: string
    var course: Course
    var priceText: string
    var menuItems: seq<MenuItem>

    /** Every dish on the menu passed validation. */
    ghost predicate Valid()
      reads this
    {
      AllWellFormed(menuItems)
    }

    /** The initial state: an empty form with course Starter and an empty menu. */
    constructor ()
      ensures Valid()
      ensures dishName == [] && description == [] && course == Starter && priceText == []
      ensures menuItems == []
    {
      dishName, description, course, priceText := [], [], Starter, [];
      menuItems := [];
    }

    /** handleAddItem: validate the form and, when it passes, append the
        new dish (with the caller-supplied `id`) and clear the form. On a
        validation failure nothing changes. */
    method HandleAddItem(id: int) returns (outcome: AddOutcome)
      modifies this
      ensures outcome == Validate(old(dishName), old(description), old(course), old(priceText), id)
      ensures outcome.Rejected? ==>
                dishName == old(dishName) && description == old(description) &&
                course == old(course) && priceText == old(priceText) &&
                menuItems == old(menuItems)
      ensures outcome.Added? ==>
                menuItems == old(menuItems) + [outcome.item] &&
                dishName == [] && description == [] && course == Starter && priceText == []
      ensures old(Valid()) ==> Valid()
      ensures outcome.Added? && old(IdsDistinct(menuItems)) && !old(HasId(menuItems, id)) ==>
                IdsDistinct(menuItems)
    {
      outcome := Validate(dishName, description, course, priceText, id);
      if outcome.Added? {
        Commit(outcome.item);
      }
    }

    /** The state changes of a successful add: append the dish at the end
        of the menu, then reset the form to its initial values. */
    method Commit(item: MenuItem)
      requires WellFormed(item)
      modifies this
      ensures menuItems == old(menuItems) + [item]
      ensures dishName == [] && description == [] && course == Starter && priceText == []
      ensures old(Valid()) ==> Valid()
      ensures old(IdsDistinct(menuItems)) && !old(HasId(menuItems, item.id)) ==> IdsDistinct(menuItems)
    {
      AppendKeepsInvariants(menuItems, item);
      menuItems := menuItems + [item];
      dishName, description, course, priceText := [], [], Starter, [];
    }

    /** The confirmed branch of handleRemoveItem: keep the dishes whose id
        differs from `id`, in order. The form is untouched. */
    method RemoveItem(id: int)
      modifies this`menuItems
      ensures menuItems == WithoutId(old(menuItems), id)
      ensures !HasId(menuItems, id)
      ensures !old(HasId(menuItems, id)) ==> menuItems == old(menuItems)
      ensures old(Valid()) ==> Valid()
      ensures old(IdsDistinct(menuItems)) ==> IdsDistinct(menuItems)
    {
      RemoveKeepsWellFormed(menuItems, id);
      WithoutIdDistinct(menuItems, id);
      menuItems := WithoutId(menuItems, id);
    }
  }
}

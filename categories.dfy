/**
 * The categories page: a handler that generates 1001 synthetic categories
 * and keeps one page of them, selected by `skip` and `take`.
 */
module Categories {
  import opened Decimals
  import opened Formatting
  import opened Pagination

  /** Ids run from 0 to LastId inclusive. */
  const LastId: nat := 1000
  const Count: nat := LastId + 1

  const TitlePrefix: string := "Categoria "

  /** The values the handler uses when the query string omits them. */
  const DefaultSkip: int := 0
  const DefaultTake: int := 25

  datatype Category = Category(Id: int, Title: string, Price: Decimal)

  /** The title of category `id`: the prefix, then the decimal digits of `id`. */
  function Title(id: nat): (t: string)
    ensures |t| > |TitlePrefix| && t[..|TitlePrefix|] == TitlePrefix
    ensures Canonical(t[|TitlePrefix|..]) && ParseDigits(t[|TitlePrefix|..]) == id
  {
    var t := TitlePrefix + NatToString(id);
    assert t[|TitlePrefix|..] == NatToString(id);
    ParseNatToString(id);
    t
  }

  /** Distinct ids get distinct titles. */
  lemma TitleInjective(a: nat, b: nat)
    ensures Title(a) == Title(b) <==> a == b
  {
    if Title(a) == Title(b) {
      assert Title(a)[|TitlePrefix|..] == Title(b)[|TitlePrefix|..];
    }
  }

  /** The record the loop adds for counter value `i`: `i * 17.54M` is exact. */
  function MakeCategory(i: nat): (c: Category)
    requires i <= Int32Max
    ensures c.Id == i
    ensures |c.Title| > |TitlePrefix| && c.Title[..|TitlePrefix|] == TitlePrefix
    ensures Canonical(c.Title[|TitlePrefix|..]) && ParseDigits(c.Title[|TitlePrefix|..]) == i
    ensures Valid(c.Price) && c.Price.scale == 2 && Value(c.Price) == i as real * 17.54
  {
    UnitPriceValue();
    Category(i, Title(i), Mul(FromInt(i), UnitPrice))
  }

  /** The complete list the loop builds, in the order it appends. */
  function AllCategories(): (all: seq<Category>)
    ensures |all| == Count
    ensures forall i :: 0 <= i < Count ==> all[i] == MakeCategory(i)
  {
    seq(Count, i requires 0 <= i < Count => MakeCategory(i))
  }

  /** Ids run 0..1000 in ascending order: no gaps, no duplicates. */
  lemma AllCategoriesIds()
    ensures forall i :: 0 <= i < |AllCategories()| ==> AllCategories()[i].Id == i
    ensures forall i, j :: 0 <= i < j < |AllCategories()| ==> AllCategories()[i].Id < AllCategories()[j].Id
  {
  }

  /** Every title is the prefix followed by the element's id, and no two titles coincide. */
  lemma AllCategoriesTitles()
    ensures forall i :: 0 <= i < |AllCategories()| ==> AllCategories()[i].Title == TitlePrefix + NatToString(i)
    ensures forall i, j :: 0 <= i < j < |AllCategories()| ==> AllCategories()[i].Title != AllCategories()[j].Title
  {
    forall i, j | 0 <= i < j < Count ensures AllCategories()[i].Title != AllCategories()[j].Title {
      TitleInjective(i, j);
    }
  }

  /** Every price is exactly `id * 17.54`, held in hundredths. */
  lemma AllCategoriesPrices()
    ensures forall i :: 0 <= i < |AllCategories()| ==>
      AllCategories()[i].Price == Decimal(1754 * i, 2) && Value(AllCategories()[i].Price) == i as real * 17.54
  {
  }

  /** The page the handler keeps for `skip` and `take`. */
  function Page(skip: int, take: int): (page: seq<Category>)
    ensures |page| == Min(Max(take, 0), Max(0, Count - Max(skip, 0)))
    ensures forall k :: 0 <= k < |page| ==> page[k] == MakeCategory(Max(skip, 0) + k)
  {
    Window(AllCategories(), skip, take)
  }

  /** Length of a page for non-negative arguments. */
  lemma PageLength(skip: nat, take: nat)
    ensures |Page(skip, take)| == Min(take, Max(0, Count - skip))
  {
  }

  /** A page is the contiguous, ordered run of records starting at `skip`. */
  lemma PageContents(skip: nat, take: nat)
    ensures forall k :: 0 <= k < |Page(skip, take)| ==>
      Page(skip, take)[k].Id == skip + k && Page(skip, take)[k] == MakeCategory(skip + k)
  {
  }

  /** Non-positive arguments: skipping nothing, or taking nothing. */
  lemma PageNonPositiveArguments(skip: int, take: int)
    ensures skip <= 0 ==> Page(skip, take) == Page(0, take)
    ensures take <= 0 ==> Page(skip, take) == []
  {
  }

  /** Skipping past the last record leaves an empty page. */
  lemma PageSkipPastEnd(skip: int, take: int)
    requires skip >= Count
    ensures Page(skip, take) == []
  {
  }

  /** A page that runs past the end is cut short: `skip = 1000, take = 25` holds only id 1000. */
  lemma PageTruncated()
    ensures |Page(1000, 25)| == 1 && Page(1000, 25)[0].Id == 1000
  {
  }

  /** Taking at least the whole list from the start returns all of it. */
  lemma PageWhole(take: int)
    requires take >= Count
    ensures Page(0, take) == AllCategories()
  {
  }

  /** The default page holds exactly ids 0..24. */
  lemma PageDefault()
    ensures |Page(DefaultSkip, DefaultTake)| == 25
    ensures forall k :: 0 <= k < 25 ==> Page(DefaultSkip, DefaultTake)[k].Id == k
  {
  }

  /** The page model: `OnGet` replaces `Categories` with one page of the generated list. */
  class CategoriesModel {
    var Categories: seq<Category>

    constructor ()
      ensures Categories == []
    {
      Categories := [];
    }

    /**
     * Builds the list of all categories one record at a time, then keeps the
     * requested page. The previous value of `Categories` plays no part.
     */
    method OnGet(skip: int := DefaultSkip, take: int := DefaultTake)
      modifies this
      ensures Categories == Page(skip, take)
    {
      var categoriesList: seq<Category> := [];
      var i := 0;
      while i <= LastId
        invariant 0 <= i <= Count
        invariant |categoriesList| == i
        invariant forall j :: 0 <= j < i ==> categoriesList[j] == MakeCategory(j)
      {
        categoriesList := categoriesList + [MakeCategory(i)];
        i := i + 1;
      }
      assert categoriesList == AllCategories();
      Categories := Window(categoriesList, skip, take);
    }
  }

  /** Two handlers asked for the same page end with equal contents, whatever they held before. */
  method OnGetIsDeterministic(skip: int, take: int, earlier: seq<Category>)
    returns (first: seq<Category>, second: seq<Category>)
    ensures first == second
    ensures |first| == Min(Max(take, 0), Max(0, Count - Max(skip, 0)))
  {
    var a := new CategoriesModel();
    var b := new CategoriesModel();
    b.Categories := earlier;
    a.OnGet(skip, take);
    b.OnGet(skip, take);
    first, second := a.Categories, b.Categories;
  }

  /** A handler called with no arguments keeps ids 0..24. */
  method OnGetWithDefaults() returns (ids: seq<int>)
    ensures ids == seq(25, k => k)
  {
    var m := new CategoriesModel();
    m.OnGet();
    ids := seq(|m.Categories|, k requires 0 <= k < |m.Categories| reads m => m.Categories[k].Id);
  }
}

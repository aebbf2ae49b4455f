# Categories page: a verified model

This project models the categories page of a small Razor Pages application.
The page handler `CategoriesModel.OnGetAsync(skip = 0, take = 25)` works in
two steps:

- It generates 1001 `Category(Id, Title, Price)` records with a counting loop,
  one record for each `i` from 0 to 1000: `Category(i, "Categoria {i}", i * 17.54M)`.
- It keeps the `Skip(skip).Take(take)` window of that list in its `Categories`
  property.

The model has four modules:

- `Decimals` (`decimals.dfy`) models the part of .NET `decimal` that a price
  needs. A decimal is a 96-bit coefficient plus a power-of-ten scale. The
  module has the conversion from `int` and exact multiplication, and proves
  that `i * 17.54M` is exactly the rational number `i * 17.54`, held as
  `1754 * i` hundredths.
- `Formatting` (`formatting.dfy`) renders a non-negative integer as its
  decimal digits, as `$"{i}"` does. A digit parser is its partner, and the
  two are proved inverse in both directions.
- `Pagination` (`pagination.dfy`) models `Skip`, `Take` and the window they
  form together. It follows the documented .NET behaviour for counts that
  are zero, negative or past the end. It also proves that consecutive pages
  fit together and that paging through the list visits every element once,
  in order.
- `Categories` (`categories.dfy`) has the `Category` record as a datatype,
  the generated list as a specification function, and `CategoriesModel` as a
  class. The class's `Categories` field is the property that the handler
  replaces. `OnGet` builds the list with a `while` loop, appending one
  record per step as the source does, and is proved to leave exactly
  `Window(AllCategories(), skip, take)` in the field.

Negative `skip` or `take` go straight to LINQ, where a non-positive skip
skips nothing and a non-positive take yields an empty page; the model does the
same, and `Categories.PageNonPositiveArguments` states it.

## Model

| member | source | states |
|---|---|---|
| `Decimals.FromInt` | Pages/Categories.cshtml.cs:15 | converting a 32-bit `int` to decimal gives a valid decimal with the same value |
| `Decimals.Mul` | Pages/Categories.cshtml.cs:15 | the decimal product of two in-range decimals is valid and its value is exactly the product of their values (no rounding) |
| `Decimals.UnitPriceValue` | Pages/Categories.cshtml.cs:15 | the literal `17.54M` (coefficient 1754, scale 2) denotes exactly 17.54 |
| `Formatting.NatToString` | Pages/Categories.cshtml.cs:15 | formatting a number gives a non-empty string of digits with no leading zero, and a single digit exactly when the number is below 10 |
| `Formatting.ParseNatToString` | Pages/Categories.cshtml.cs:15 | parsing the formatted digits gives back the number |
| `Formatting.NatToStringParse` | Pages/Categories.cshtml.cs:15 | formatting the number that a canonical digit string denotes gives back that string |
| `Formatting.NatToStringInjective` | Pages/Categories.cshtml.cs:15 | two numbers are formatted alike if and only if they are equal |
| `Pagination.Skip` | Pages/Categories.cshtml.cs:19 | `Skip(n)` drops the first `max(n, 0)` elements (all of them if `n` is past the end) and keeps the rest in order |
| `Pagination.Take` | Pages/Categories.cshtml.cs:20 | `Take(n)` keeps the first `min(max(n, 0), length)` elements in order |
| `Pagination.Window` | Pages/Categories.cshtml.cs:18-21 | the page has length `min(max(take,0), max(0, length - max(skip,0)))` and element `k` is source element `max(skip,0) + k` |
| `Pagination.WindowIsSlice` | Pages/Categories.cshtml.cs:18-21 | the page equals the contiguous slice between the clamped start and the clamped end |
| `Pagination.WindowsAdjoin` | Pages/Categories.cshtml.cs:18-21 | the page of `a` elements at `skip` followed by the page of `b` elements at `skip + a` is the page of `a + b` elements at `skip` |
| `Pagination.PagesAreAPrefix` | Pages/Categories.cshtml.cs:18-21 | the first `n` pages of size `t`, requested in turn, concatenate to the first `n * t` elements |
| `Pagination.PagesCoverAll` | Pages/Categories.cshtml.cs:18-21 | enough pages of any size concatenate to the whole list, so each record is seen exactly once, in order |
| `Categories.Title` | Pages/Categories.cshtml.cs:15 | a title is `"Categoria "` followed by a canonical digit string that denotes the id |
| `Categories.TitleInjective` | Pages/Categories.cshtml.cs:15 | two ids get the same title if and only if they are equal |
| `Categories.MakeCategory` | Pages/Categories.cshtml.cs:15 | the record for counter `i` has `Id == i`, a title made of the prefix and the digits of `i`, and a price of scale 2 worth exactly `i * 17.54` |
| `Categories.AllCategories` | Pages/Categories.cshtml.cs:10-16 | the generated list has exactly 1001 elements and element `i` is the record for counter `i` |
| `Categories.AllCategoriesIds` | Pages/Categories.cshtml.cs:13-16 | ids are `0..1000` by position and strictly ascending, so there are no gaps and no duplicates |
| `Categories.AllCategoriesTitles` | Pages/Categories.cshtml.cs:15 | element `i` has title `"Categoria "` + digits of `i`, and no two titles coincide |
| `Categories.AllCategoriesPrices` | Pages/Categories.cshtml.cs:15 | element `i` has price `1754 * i` hundredths, worth exactly `i * 17.54` |
| `Categories.Page` | Pages/Categories.cshtml.cs:18-21 | the Skip/Take window of the generated list: `min(max(take,0), max(0, 1001 - max(skip,0)))` records, record `k` being generated record `max(skip,0) + k`; PageLength, PageContents and the edge-case lemmas state its properties |
| `Categories.PageLength` | Pages/Categories.cshtml.cs:18-21 | for non-negative arguments the page has `min(take, max(0, 1001 - skip))` records |
| `Categories.PageContents` | Pages/Categories.cshtml.cs:18-21 | record `k` of the page has `Id == skip + k` and equals generated record `skip + k` |
| `Categories.PageNonPositiveArguments` | Pages/Categories.cshtml.cs:19-20 | a non-positive skip acts as 0 and a non-positive take yields an empty page |
| `Categories.PageSkipPastEnd` | Pages/Categories.cshtml.cs:18-21 | `skip >= 1001` yields an empty page |
| `Categories.PageTruncated` | Pages/Categories.cshtml.cs:18-21 | `skip = 1000, take = 25` yields the single record with id 1000 |
| `Categories.PageWhole` | Pages/Categories.cshtml.cs:18-21 | `skip = 0` with `take >= 1001` yields all 1001 records |
| `Categories.PageDefault` | Pages/Categories.cshtml.cs:8-21 | the defaults `skip = 0, take = 25` yield exactly ids `0..24` |
| `Categories.CategoriesModel.constructor` | Pages/Categories.cshtml.cs:7 | a new page model starts with an empty `Categories` list |
| `Categories.CategoriesModel.OnGet` | Pages/Categories.cshtml.cs:8-22 | after the loop has appended records `0..1000`, `Categories` holds exactly the requested page of the generated list, whatever it held before |
| `Categories.OnGetIsDeterministic` | Pages/Categories.cshtml.cs:7-22 | two handlers called with the same arguments end with equal `Categories`, even when one of them held other records before, and the length is the page length |
| `Categories.OnGetWithDefaults` | Pages/Categories.cshtml.cs:8-21 | a handler called without arguments keeps the records with ids `0..24`, in order |

## Left out

- `await Task.Delay(100)` and the async `Task` machinery: they affect only timing, so `OnGet` is synchronous.
- The `PageModel` base class, page rendering and query-string binding of `skip` and `take`: these are framework code outside the model.
- Decimals.Mul: covers only products that .NET computes exactly, where the scales sum to at most 28 and the coefficient fits in 96 bits. Rounding of wider scales and `OverflowException` are not modelled. Every price on the page, `i * 17.54M` for a 32-bit `i`, is within this range.
- Decimal equality: .NET compares decimals by value, so `1.0M == 1.00M`. The datatype compares coefficient and scale. All prices here have scale 2, so the two notions agree on them.
- Formatting.NatToString: formats only non-negative numbers. A negative `int` would use the culture's negative sign, but the loop counter is never negative.
- 32-bit `int` arithmetic for `skip`, `take` and the loop counter: these are unbounded integers. The loop stops at 1000, and `Skip` and `Take` take each count on its own, so no overflow can occur.
- Object identity of the list that `ToList` returns: `Categories` is a value (`seq`), so aliasing of the list object is not modelled.

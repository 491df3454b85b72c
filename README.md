# ModelSelect: request-to-query translation, modelled in Dafny

`ModelSelect` (laravel-crbac, `src/Services/ModelSelect.php`) turns the query
parameters of one admin-panel request into clauses on an Eloquent query builder:

- **Rule engine** (`where`, `having`, `rule`). Each declared rule reads its input
  value. An empty value (PHP `empty`) skips the rule. Otherwise the rule becomes a
  callable invocation or a `(field, operator, value)` triple. `where` adds a
  `whereIn`/`whereNotIn` clause for `in`/`not in`; `having` never does.
- **Order resolver** (`order`, `setOrderKey`). The sort key is checked against a
  whitelist. The direction is kept only when it is exactly `asc` or `desc`.
  Otherwise it becomes `desc`, and that is written back to the input.
- **Sort-link closure** (`orderToString`). It gives a column header either a link
  that requests the opposite of the column's current direction, or a CSS class.
- **Construction and page size** (`__construct`, the start of `lists`).

The project has one file per layer:

| file | module | contents |
|---|---|---|
| `php_values.dfy` | `PhpValues` | PHP values, `empty`, the string cast, the array-key cast, flat lookup |
| `query_log.dfy` | `QueryLog` | the builder, modelled as an append-only log of `Clause`s |
| `rule_engine.dfy` | `RuleEngine` | rule shapes, one rule step, `RulesClauses`, the lemmas about them |
| `order_resolver.dfy` | `OrderResolver` | direction normalisation, the order decision, the sort-link closure |
| `model_select.dfy` | `ModelSelectService` | the `ModelSelect` class, its factory, and the defaults and page-size logic |

The class keeps the source's mutable state as fields: `input`, `clauses` (the
builder), `orderKey` and `byKey`. Its methods `Rule`, `Order`, `SetOrderKey` and
`Lists` change these fields in place. Each of them is proved against a pure
function of the old state (`RulesClauses`, `OrderedInput`, `OrderClauses`,
`PageSize`), and the lemmas state the source's promises about those functions.

Two things the source reads from the framework are passed in explicitly:

- The ambient request (`Request::input`, `Request::merge`, `Request::all`) is a
  parameter of `ModelSelect.Make`. The request as the constructor leaves it comes
  back as a result.
- The model's default page size (`getModel()->getPerPage()`) is a parameter of
  `Lists`.

The constructor's defaults are a sequence of key/value pairs, kept in the order
they were declared. A PHP array cannot repeat a key, so `DefaultsFillGaps`
assumes distinct keys.

## Behaviour worth noting

The code behaves as follows in a few places where a reader might expect otherwise.

- The value is read under the rule's own key, not under the remapped field
  (`rule[0]`) (`ModelSelect.php:145`).
- Emptiness is tested on the raw value, before the transform runs. A transform
  that returns an empty value still reaches the builder
  (`EmptinessTestedBeforeTransform`).
- A rule that is not a string, an array or a callable is not rejected. The code
  treats it as equality on its key (`OtherRule`).
- Defaults are merged into the ambient request only. If the constructor gets a
  non-empty explicit input, that input is used unchanged and the defaults do not
  reach it (`ModelSelect.php:36-39`).
- For a column that is not the sorted one, the link requests the opposite of
  `defaultBy`, not `defaultBy` itself (`ModelSelect.php:119-123`, `LinkToggles`).
- The closure snapshots the base query when `orderToString` is called. It reads
  the current sort key, direction and key names through `$this` each time it is
  called (`SortLinkFor`).
- The constructor throws `new Exception(...)` (`ModelSelect.php:34`) inside the
  namespace `XiHuan\Crbac\Services` without importing `Exception`. PHP resolves
  the name to `XiHuan\Crbac\Services\Exception`, which does not exist, so the
  unsupported-model path ends in a class-not-found error rather than the intended
  exception. Either way construction fails, and the model records that as
  `Failure(UnsupportedModel)`.
- The PHP default arguments are kept as Dafny default parameters: the constructor's
  empty input and defaults (`:28`), `setOrderKey('order', 'by')` (`:100`),
  `orderToString('order-desc', 'order-asc')` (`:110`), the closure's
  `getUrl = true` and `defaultBy = 'desc'` (`:114`), and `lists`'s null hook and
  `perPage = 0` (`:178`). `Lists` takes the model's page size first, because it is
  a parameter the PHP method does not have.

`PhpValues.IsEmpty`, `PhpValues.ToPhpString`, `PhpValues.DecimalString`,
`PhpValues.ArrayKey` and `ModelSelectService.MergedRequest` are definitions of PHP
conversions and of the merge. The rows below that use them state their meaning.

## Model

| member | source | states |
|---|---|---|
| `PhpValues.Lookup` | src/Services/ModelSelect.php:145 | a flat `array_get`: an absent key reads as null, a present key as its value |
| `RuleEngine.RuleStep` | src/Services/ModelSelect.php:136-167 | one rule emits nothing exactly when its input value is PHP-empty; it becomes a callable invocation exactly when the rule is callable, and the invocation gets the raw value read under the rule's own key |
| `RuleEngine.PositionalStringIsEquality` | src/Services/ModelSelect.php:137-140 | a string rule under an integer key is `=` on the field it names, read under that field |
| `RuleEngine.NamedStringIsOperator` | src/Services/ModelSelect.php:141-143 | a string rule under a field name is that field's operator |
| `RuleEngine.Normalize` | src/Services/ModelSelect.php:137-160 | a string under an integer key is `=` on the field it names, read under that field; a string under a name is that field's operator; an array rule takes field, operator (default `=`) and transform from its slots; only a callable becomes a call; every rule but a string under an integer key reads under its own key |
| `RuleEngine.ShapeValue` | src/Services/ModelSelect.php:161-166 | the transform, if any, is applied to the raw value; `like` then wraps the string form of the result in `%`; any other operator passes it through |
| `RuleEngine.ArrayRuleReadsOwnKey` | src/Services/ModelSelect.php:145-160 | a firing array rule reads its value under its own key and emits `rule[0]` (default: its key) as field, `rule[1]` (default `=`) as operator, and the value passed through `rule[2]` when given |
| `RuleEngine.ReadsOwnKey` | src/Services/ModelSelect.php:145-148 | every rule except a string under an integer key is skipped exactly when the value under its own key is empty |
| `RuleEngine.TransformThenLike` | src/Services/ModelSelect.php:161-166 | `rule[2]` is applied first, and `like` then wraps the transformed value as `%v%` |
| `RuleEngine.LikeWrapsString` | src/Services/ModelSelect.php:164-166 | a `like` rule on the string input `s` emits `%s%` on its field |
| `RuleEngine.EmptinessTestedBeforeTransform` | src/Services/ModelSelect.php:145-148 | the emptiness test looks at the raw value, so a transform that yields null still emits a clause |
| `RuleEngine.CallableGetsRawValue` | src/Services/ModelSelect.php:149-152 | a callable rule with a non-empty value is called with the raw value, untransformed and unwrapped, and is its rule's only effect |
| `RuleEngine.EmptyValueEmitsNothing` | src/Services/ModelSelect.php:146-148 | a rule whose value is empty appends no clause and invokes no callable |
| `RuleEngine.WhereClausesForOperator` | src/Services/ModelSelect.php:58-65 | `where` with `in`/`not in` emits `whereIn`/`whereNotIn` then the generic clause; any other operator emits the generic clause only |
| `RuleEngine.RulesClausesAppend` | src/Services/ModelSelect.php:136-168 | clauses follow rule declaration order: the clauses of `a + b` are those of `a` followed by those of `b` |
| `RuleEngine.AllEmptyEmitsNothing` | src/Services/ModelSelect.php:145-148 | when every rule's value is empty, the builder receives nothing |
| `RuleEngine.HavingOnePerFiringRule` | src/Services/ModelSelect.php:72-75 | `having` appends exactly one clause per rule with a non-empty value, and never a `where` or set-membership clause |
| `RuleEngine.WhereClauseCount` | src/Services/ModelSelect.php:57-66 | `where` appends one clause per firing rule plus one per firing `in`/`not in` rule, and no `having` clause |
| `OrderResolver.NormalizeDirection` | src/Services/ModelSelect.php:85-90 | the applied direction is `asc` exactly when the input says `"asc"`; any other value, including a missing one, gives `desc`; a valid direction is kept as is |
| `OrderResolver.OrderColumn` | src/Services/ModelSelect.php:83-84 | a column is chosen exactly when the order value is truthy, names a whitelisted key, and that key's column is truthy; the column is the whitelist's entry for that key |
| `OrderResolver.OrderClauses` | src/Services/ModelSelect.php:84-91 | `order` appends a clause exactly when a column is chosen, and then exactly one: `orderBy` on the whitelist's column for the order value, in the normalised requested direction |
| `OrderResolver.OrderedInput` | src/Services/ModelSelect.php:86-89 | with no column chosen the input is unchanged; with one chosen the by-key ends up holding a valid direction; no other key changes |
| `OrderResolver.OrderedInputAgreesWithClause` | src/Services/ModelSelect.php:85-90 | the direction written back to the input is the direction passed to `orderBy` |
| `OrderResolver.OrderIdempotent` | src/Services/ModelSelect.php:82-92 | with distinct key names, a second `order` leaves the input unchanged and emits the same clause |
| `OrderResolver.BaseQuery` | src/Services/ModelSelect.php:111-112 | the link's base query is the input without the order and by keys, and every other entry is kept |
| `OrderResolver.ResolvedDirection` | src/Services/ModelSelect.php:115-121 | the current direction is the input's `asc`/`desc` when the input sorts by this very name; otherwise it is `defaultBy` |
| `OrderResolver.Flip` | src/Services/ModelSelect.php:123 | the requested direction is always `asc` or `desc`, and it is `desc` exactly when the current one is `asc` |
| `OrderResolver.SortLink` | src/Services/ModelSelect.php:114-127 | a URL exactly when `getUrl`; the URL keeps the base query and ends with the by-key set to the flipped direction, after the order key set to the name; otherwise the asc class for a current `asc` and the desc class for anything else |
| `OrderResolver.LinkToggles` | src/Services/ModelSelect.php:115-123 | the link of the sorted column flips `asc` to `desc` and back; any other column's link requests the opposite of `defaultBy` |
| `OrderResolver.LinkAndClassAgree` | src/Services/ModelSelect.php:122-125 | with distinct class names, the class is the asc one exactly when the link requests `desc` |
| `OrderResolver.OrderAndLinkAgree` | src/Services/ModelSelect.php:82-121 | after `order`, the link helper reports, for the sorted column, the direction `order` passed to the builder |
| `ModelSelectService.ModelClassOf` | src/Services/ModelSelect.php:29-35 | a class name or a model instance gives the model class; any other argument is a configuration error |
| `ModelSelectService.SuppliedValuesKept` | src/Services/ModelSelect.php:36-38 | a value the request already holds (non-null) is never replaced by a default |
| `ModelSelectService.DefaultsFillGaps` | src/Services/ModelSelect.php:36-38 | with distinct default keys, every key the request holds as null or not at all ends up with its default, and every other default key keeps the request's value |
| `ModelSelectService.UntouchedKey` | src/Services/ModelSelect.php:36-38 | a key no default names keeps its request value |
| `ModelSelectService.MergeDefaults` | src/Services/ModelSelect.php:36-38 | the `foreach` over the defaults, in declaration order, produces exactly `MergedRequest` |
| `ModelSelectService.SelectInput` | src/Services/ModelSelect.php:39 | a non-empty explicit input replaces the request entirely; an empty one selects the request |
| `ModelSelectService.PageSize` | src/Services/ModelSelect.php:182-187 | null `perPage` means all rows, unpaginated; `perPage < 1` falls back to the model's page size; any other value is used as given |
| `ModelSelectService.ModelSelect.constructor` | src/Services/ModelSelect.php:18-19 | an accepted model starts with an empty builder and the key names `order` and `by` |
| `ModelSelectService.ModelSelect.Make` | src/Services/ModelSelect.php:28-41 | an unsupported model fails and leaves the request alone; otherwise the defaults are merged into the request, the input is selected, and the builder starts empty |
| `ModelSelectService.ModelSelect.Apply` | src/Services/ModelSelect.php:58-75 | the `where` and `having` closures append exactly `SinkClauses` |
| `ModelSelectService.ModelSelect.ApplyRule` | src/Services/ModelSelect.php:137-167 | one iteration of the rule loop appends exactly the clauses `RuleStep` prescribes for that rule against the current input |
| `ModelSelectService.ModelSelect.Rule` | src/Services/ModelSelect.php:135-170 | the `foreach` appends exactly `RulesClauses` of the rules against the current input |
| `ModelSelectService.ModelSelect.Where` | src/Services/ModelSelect.php:57-66 | appends the `where` clauses of the rules |
| `ModelSelectService.ModelSelect.Having` | src/Services/ModelSelect.php:72-76 | appends the `having` clauses of the rules |
| `ModelSelectService.ModelSelect.Order` | src/Services/ModelSelect.php:82-93 | the new input is `OrderedInput` of the old one, and the builder gains `OrderClauses` |
| `ModelSelectService.ModelSelect.SetOrderKey` | src/Services/ModelSelect.php:100-103 | sets the two key names |
| `ModelSelectService.ModelSelect.OrderToString` | src/Services/ModelSelect.php:110-113 | the captured query drops the order and by keys and keeps every other input entry; the class names are captured |
| `ModelSelectService.ModelSelect.SortLinkFor` | src/Services/ModelSelect.php:114-127 | the closure as the object's current state sees it: a URL exactly when `getUrl` (default true), keeping the captured query and requesting the flip of the current direction (default `desc`); otherwise the class of the current direction |
| `ModelSelectService.ModelSelect.Lists` | src/Services/ModelSelect.php:178-187 | the hook sees the builder first; the page mode is `PageSize` |
| `ModelSelectService.AdminByCreatedScenario` | src/Services/ModelSelect.php:82-127 | input `{name: admin, order: created, by: bogus}` with rule `{name: like}` and whitelist `{created: created_at}` gives `name like %admin%` and `order by created_at desc`, and `by` becomes `desc`; the menu list header's two calls on `created` (`lists.blade.php:17`, with default arguments) then give the class `order-desc` and a link requesting `asc` |

## Left out

- The grouped-query count subquery, the paginator and query execution (`ModelSelect.php:188-201`). These are database I/O. `Lists` stops at the page-size decision.
- `appends(Request::all())` (`ModelSelect.php:202`). It reads the ambient request and is part of paginator construction.
- `__call` forwarding to the builder (`ModelSelect.php:48-51`). This is reflective dispatch onto library code.
- URL encoding by `http_build_query` and `Request::url()`. A link is the base query map plus the sort parameter pairs. So the dropping of null entries, the `?`/`&` joining and the current URL are not modelled.
- Dot-notation lookup in `array_get`. The input is a flat map.
- The `query()` factory. The builder starts as an empty log. A class name with no such class (a fatal error in PHP) is not modelled.
- Callables and transforms are opaque. A callable rule and the `lists` hook are recorded as `Callback`/`Hook` entries; what they do to the builder is not modelled. A transform is a total, side-effect-free function.
- `is_callable` on arrays. The caller states whether a rule is a `CallRule` or an `ArrRule`. An array such as `['Class', 'method']`, which PHP would find callable, is not detected.
- Operators and fields are strings. `==` between two non-numeric strings is plain equality. A non-string operator (which PHP 7 compares loosely, so `0 == 'like'`) is not modelled.
- Rule keys are taken as PHP stores them. A decimal-integer key is always `Position`, never `Name`.
- Floats and objects as input values.
- The PHP notice raised when `like` wraps an array. The value still becomes `%Array%`, and that is modelled.
- `OrderResolver.OrderColumn`: an order value that is an array is not modelled faithfully; the model chooses no column. What PHP does depends on its version and on the framework's `array_get`: it may raise an illegal-offset error, or it may fall through the key lookup and return the whole whitelist, which `orderBy` then receives as its column.
- `ModelSelectService.ModelSelect.Order`: the rewrite of the by-key is a map update. PHP's `array_merge` would renumber the input's integer keys and append a decimal-integer by-key under a fresh index.
- The template `src/Resources/views/power/menu/lists.blade.php` is not modelled beyond its two calls of the sort-link closure, which `AdminByCreatedScenario` covers.
- `lists`'s `$perPageColumns` argument (`ModelSelect.php:178`). It only selects the columns the paginator fetches, which is query execution.

# generalized_api: the policy layer, modelled in Dafny

`generalized_api` is a Rails mixin that gives a controller generic
index/show/create/update/destroy/count/search actions. Around the framework
calls sits a small policy layer, which this project models and proves
properties of. The layer has two versions.

**The current module `GeneralizedApi::Api`** (`api.dfy`):
- a process-wide registry of permitted fields, filled by `permit_params`;
- a per-class filter chain, filled by `apply_filter`;
- the rule that decides which filters run for an action (`except`, `only`, `unless` and `next` options);
- the fold that threads a value through the eligible filters;
- the parsing of `order_by`;
- fuzzy-search conditions;
- pagination defaults;
- the JSON envelope;
- the key resolution of `permitted_params`.

**The older base class `GeneralizedApi::Controller`** (`controller.dfy`):
- the same registry, but with String/Symbol-typed keys and no de-duplication;
- three callback lists per class (before, after, filter);
- the order in which an action runs its callbacks around its body;
- the plural/singular merge of allowed lists;
- the lenient whitelist;
- the `restful_api` switch of the envelope;
- the precondition of `search`.

The registries are fields of a Dafny class (`Api.ApiState`,
`Controller.ControllerState`) updated by methods with `modifies` clauses.
Each method's loop is proved against a specification function over the
old state. Those functions live in `Registration` and `Dispatch` and are
shared by both versions. The lemmas beside them state what one
registration does, what it keeps and what it raises.

Shared modules:
- `Ruby`: values, their classes, truthiness and `to_sym`.
- `RubyStrings`: the `split`, `join` and `downcase` behaviour that order parsing relies on.
- `Support`: the ActiveSupport inflections, as functions supplied by the caller.
- `Settings`: the constants and the configuration.
- `Request`: parameter lookup, pagination and the `model` parameter.
- `Response`: the envelope merge.
- `Query`: the fuzzy-search fragment.

Where the library's own description and its code differ, the model follows the code:
- **Eligibility reads `:next`, not `:if`.** `apply_filter_due_to_if?` reads the `:next` option. An `if:` option is never consulted (`Api.IfOptionIgnored`).
- **`unless:` works like `if:`.** A filter runs only when every `unless:` proc answers true, despite the method's name.
- **`except:` is checked first.** It is checked before `only:`, so a rule naming the action in both is skipped.
- **Rejected order tokens stay as nil.** `order_params` keeps one entry per token, and a rejected token becomes nil rather than being dropped.
- **A failing list registration keeps its list.** In both versions the list under the controller's key is created (`||= []`) before each `to_sym`. So a field without `to_sym` still leaves that list in place, empty when it was new.
- **A `false` model raises only in `Api`.** `resource_name` reads `if params[:model]`, so `false` counts as absent there. `permitted_params` then calls `params[:model]&.singularize`; `&.` skips only nil, so `false` raises `NoMethodError` once the resource key is present (`Api.FalseModelRaises`). The older class tests `params[:model]` for truth in both places, so there `false` is simply absent.
- **An Array `order_by` orders by nothing.** With ActiveSupport loaded, `Array#split(',')` splits the array at its "," elements. Each group is split again, its first element is an Array and never a legal column, so every group becomes nil (`Api.OrderParamsArrayExample`). Any other non-String `order_by` raises.
- **Hash-registered fields are invisible without `model`.** In the older class they are stored under Symbol keys, but a request without `model` looks its fields up under a String key (`Controller.HashFieldsNeedModel`).

## Model

| member | source | states |
|---|---|---|
| `RubyStrings.Fields` | lib/generalized_api/api.rb:198 | splitting on a one-character separator yields at least one field, and no field contains the separator |
| `RubyStrings.JoinFields` | lib/generalized_api/api.rb:198 | joining the fields of a split with the separator restores the string |
| `RubyStrings.FieldsJoin` | lib/generalized_api/api.rb:198 | splitting a join of separator-free fields gives those fields back |
| `RubyStrings.DropTrailingEmpty` | lib/generalized_api/api.rb:198 | `split` keeps a prefix of the fields that ends in a non-empty field, dropping only empty ones |
| `RubyStrings.LeadingWord` | lib/generalized_api/api.rb:199 | the first word is the longest whitespace-free prefix |
| `RubyStrings.Words` | lib/generalized_api/api.rb:199 | `split(' ')` yields only non-empty whitespace-free words |
| `RubyStrings.WordsUnwords` | lib/generalized_api/api.rb:199 | splitting a space-joined list of words gives the words back |
| `RubyStrings.WordsSkipsSpace` | lib/generalized_api/api.rb:199 | `split(' ')` ignores whitespace in front of a string |
| `Ruby.ArraySplit` | lib/generalized_api/api.rb:198 | ActiveSupport's `Array#split` always yields at least one group |
| `Ruby.ArraySplitCount` | lib/generalized_api/api.rb:198 | `Array#split` yields one group more than the array has separator elements |
| `Ruby.ArraySplitRuns` | lib/generalized_api/api.rb:198 | no group of `Array#split` holds the separator |
| `Ruby.ArraySplitJoin` | lib/generalized_api/api.rb:198 | joining the groups of `Array#split` with the separator restores the array |
| `Ruby.ArraySplitExample` | lib/generalized_api/api.rb:198 | `[1, ",", 2].split(",")` is `[[1], [2]]` |
| `Support.ControlledResourceName` | lib/generalized_api/api.rb:118-120 | defines `_controlled_resource_name`: the singular of the controller's table name; the inflections are supplied by the caller |
| `Settings.Wildcarded` | lib/generalized_api/api.rb:190-193 | the search value is wrapped in one `%` on each side, unchanged in between |
| `Settings.WildcardedInjective` | lib/generalized_api.rb:10 | different search values give different patterns |
| `Query.LikeFragmentInjective` | lib/generalized_api/api.rb:186-188 | under one LIKE operator, different fields give different condition fragments |
| `Request.Param` | lib/generalized_api/controller.rb:125 | a parameter counts as given exactly when it is present and neither nil nor false |
| `Request.PaginationParams` | lib/generalized_api/api.rb:221-227 | both page and per_page given are used as they are; otherwise page 1 of 1000; the result is always truthy |
| `Request.PaginationIdempotent` | lib/generalized_api/controller.rb:180-186 | feeding a resolved pagination back as the request resolves to the same pagination |
| `Response.Without` | lib/generalized_api/api.rb:230 | removing a key leaves no entry under it and changes nothing when the key is absent; `Response.WithoutSnoc` fixes the rest, entry by entry |
| `Response.WithoutAppend` | lib/generalized_api/api.rb:230 | removing a key works entry by entry: on `a + b` it is the removal on `a` then on `b` |
| `Response.WithoutSnoc` | lib/generalized_api/api.rb:230 | one more entry is dropped when its key is the removed one and kept, last, otherwise |
| `Response.Merge` | lib/generalized_api/api.rb:230 | `{k => v}.merge(info)` keeps `k` first and nowhere else, with `info`'s value if any, and otherwise is `(k, v)` followed by `info` |
| `Response.MergeWithout` | lib/generalized_api/api.rb:229-231 | the envelope adds one entry and hides none of the payload's other entries |
| `Registration.SymNames` | lib/generalized_api/api.rb:91 | one symbol per field |
| `Registration.SymNamesAt` | lib/generalized_api/api.rb:91 | the `i`th symbol is the `i`th field's `to_sym` |
| `Registration.AppendEach` | lib/generalized_api/api.rb:88-92 | defines the inner loop of the Hash branch as a fold over the fields, stopping at the first without `to_sym`; its meaning is stated by `Registration.AppendEachMeaning` |
| `Registration.AppendEachMeaning` | lib/generalized_api/api.rb:88-92 | appending stops at the first field without `to_sym`, which it reports; when none stops it the list gains all the fields in order; other keys are unchanged |
| `Registration.AppendEachStopsAt` | lib/generalized_api/api.rb:89 | at the first bad field, the fields before it stay appended and nothing after it is |
| `Registration.AppendEachCreating` | lib/generalized_api/api.rb:95-98 | as `AppendEach`, but the list exists afterwards whenever a field was examined |
| `Registration.AppendEachCreatingAll` | lib/generalized_api/api.rb:95-98 | when every field has `to_sym`, the list under the key gains all of them in order and nothing else changes |
| `Registration.AppendPairs` | lib/generalized_api/api.rb:85-93 | a Hash registration succeeds exactly when every entry is an Array of Strings and Symbols |
| `Registration.AppendPairsLookup` | lib/generalized_api/api.rb:86-92 | a successful Hash registration appends under each key exactly the fields of the entries mapping to it, in order, duplicates kept |
| `Registration.AppendPairsHas` | lib/generalized_api/api.rb:86-92 | after a successful Hash registration a key is present exactly when it was before or gained a field |
| `Registration.CollectedFromEntry` | lib/generalized_api/api.rb:90 | only keys derived from the entries' own keys gain fields |
| `Registration.AppendPairsConcat` | lib/generalized_api/api.rb:86-87 | a failing entry keeps everything registered before it and stops the rest |
| `Registration.Dedup` | lib/generalized_api/api.rb:99 | `uniq` leaves no duplicates and the same members, never growing the list |
| `Registration.DedupKeepsDistinct` | lib/generalized_api/api.rb:99 | a list without duplicates is unchanged, so `uniq` is idempotent |
| `Registration.DedupPrefix` | lib/generalized_api/api.rb:99 | `uniq` keeps first occurrences in order: the result on a prefix is a prefix of the result |
| `Registration.DedupAbsorbs` | lib/generalized_api/api.rb:99 | appending members a duplicate-free list already has and applying `uniq` gives that list back |
| `Registration.DedupAppendAgain` | lib/generalized_api/api.rb:99 | appending the same fields again after `uniq` and applying `uniq` once more changes nothing |
| `Dispatch.Pipe` | lib/generalized_api/api.rb:152-159 | threading a value through named handlers succeeds exactly when every name is defined, and otherwise names a missing one |
| `Dispatch.PipeOne` | lib/generalized_api/api.rb:157 | a defined handler receives the value, and its result is the outcome |
| `Dispatch.PipeCons` | lib/generalized_api/controller.rb:147-149 | each handler's result is the next handler's input |
| `Dispatch.PipeStopsAtFirstMissing` | lib/generalized_api/controller.rb:147-149 | a failing chain reports the first name no handler answers to, every name before it being defined |
| `Dispatch.PipeAppend` | lib/generalized_api/controller.rb:147-149 | running the chain `a + b` is running `a` then, unless it failed, `b` on its result |
| `Api.SkipDueToExcept` | lib/generalized_api/api.rb:125-130 | defines the skip: an `except:` scope is given and names the action, as one name or in a list |
| `Api.ApplyDueToOnly` | lib/generalized_api/api.rb:132-137 | defines the `only:` test: no scope, or a scope naming the action |
| `Api.PassesUnless` | lib/generalized_api/api.rb:139-142 | defines the `unless:` test: no procs, or every proc answers true |
| `Api.PassesNext` | lib/generalized_api/api.rb:144-147 | defines the `next:` test: no procs, or every proc answers true |
| `Api.Eligible` | lib/generalized_api/api.rb:152-157 | defines when `filters` calls a rule's handler: not skipped by `except:`, passing `only:`, `unless:` and `next:`; stated in set terms by `Api.EligibleMeaning` |
| `Api.EligibleMeaning` | lib/generalized_api/api.rb:125-147 | A rule is eligible exactly when its `except:` scope is absent or leaves out the action, its `only:` scope is absent or names the action, and every `unless:` proc and every `next:` proc answers true. |
| `Api.IfOptionIgnored` | lib/generalized_api/api.rb:144-147 | the `if:` option has no effect on eligibility |
| `Api.EligibleHandlers` | lib/generalized_api/api.rb:152-157 | the handlers called are exactly those of the eligible rules |
| `Api.EligibleHandlersAppend` | lib/generalized_api/api.rb:152 | the handlers of a chain `a + b` are those of `a` followed by those of `b` |
| `Api.PermitList` | lib/generalized_api/api.rb:94-99 | defines the Array/Symbol/String branch: the creating fold, then `uniq!`, which raises when the list was never created; its meaning is stated by `Api.PermitListMeaning` |
| `Api.PermitSpec` | lib/generalized_api/api.rb:82-103 | defines `permit_params`: a Hash goes to `AppendPairs`, an Array, Symbol or String to `PermitList`, anything else raises |
| `Api.PermitListMeaning` | lib/generalized_api/api.rb:94-99 | a list registration succeeds exactly when all fields have `to_sym` and the list exists; the list then holds old and new fields, each once; other keys are unchanged |
| `Api.PermitListStopsAt` | lib/generalized_api/api.rb:95-97 | on a bad field the registration raises, and the list holds the old fields plus those before the bad one, not de-duplicated |
| `Api.PermitListOnce` | lib/generalized_api/api.rb:94-99 | a successful list registration is one update: the list under the key becomes the old and new fields with duplicates removed |
| `Api.PermitListSettled` | lib/generalized_api/api.rb:94-99 | registering fields already listed, in a list without duplicates, leaves the registry as it was and raises nothing |
| `Api.PermitListTwice` | lib/generalized_api/api.rb:99 | registering the same fields a second time leaves the registry as the first time did |
| `Api.ApiState.constructor` | lib/generalized_api/api.rb:9 | both registries start empty |
| `Api.ApiState.PermitParams` | lib/generalized_api/api.rb:82-103 | the registry and the raised error are those of the registration specification; the filter chains are untouched |
| `Api.ApiState.RegisterPairs` | lib/generalized_api/api.rb:85-93 | the Hash branch's nested loops compute `AppendPairs` |
| `Api.ApiState.AppendFields` | lib/generalized_api/api.rb:88-92 | the inner loop computes `AppendEach` |
| `Api.ApiState.AppendListFields` | lib/generalized_api/api.rb:95-98 | the list loop computes `AppendEachCreating` |
| `Api.ApiState.RegisterList` | lib/generalized_api/api.rb:94-99 | the list branch, `uniq!` included, computes `PermitList` |
| `Api.ApiState.ApplyFilter` | lib/generalized_api/api.rb:113-116 | exactly one rule is added at the end of the class's chain, the record created on first use; other classes and the registry are untouched |
| `Api.ApiState.Filters` | lib/generalized_api/api.rb:149-160 | the input comes back unchanged for an unregistered class; otherwise it is threaded through the eligible handlers in order |
| `Api.OnlyRuleRunsFor` | lib/generalized_api/api.rb:132-137 | a rule limited by `only:` runs exactly for the actions named |
| `Api.ExceptRuleRunsFor` | lib/generalized_api/api.rb:125-130 | a rule limited by `except:` runs exactly for the actions not named |
| `Api.PermittedParams` | lib/generalized_api/api.rb:253-259 | a model raises exactly when it is neither a String nor `false` (reporting its class), or when it is `false` and the resource key is present (reporting FalseClass); otherwise nothing is permitted without the resource key; otherwise `require` gets that computed key, the registry key is the singularised model or the controller's own resource name, and the allowed list is what is registered there |
| `Api.FalseModelRaises` | lib/generalized_api/api.rb:257 | a `false` model with the resource key present raises, reporting FalseClass |
| `Api.ListedFieldsArePermitted` | lib/generalized_api/api.rb:94-99 | after a list registration, a request whose `model` is missing or nil is checked against every field registered, each once |
| `Api.OrderEntry` | lib/generalized_api/api.rb:199-203 | a kept entry has a legal column and an asc/desc direction in any case |
| `Api.OrderParams` | lib/generalized_api/api.rb:195-205 | `:id` without `order_by`; an `order_by` that is neither a String nor an Array raises, reporting its class; for a String, entry `i` is `OrderEntry` of the `i`th comma-separated token, so every kept entry is legal; for an Array, one nil per group, one group more than it has "," elements |
| `Api.OrderEntryOfWords` | lib/generalized_api/api.rb:199-203 | a `col dir` token is kept, direction as written, exactly when the column is legal and the direction valid |
| `Api.OrderEntryDefaultsToDesc` | lib/generalized_api/api.rb:199-203 | a token of one word orders by it descending when the column is legal and is nil otherwise |
| `Api.OrderEntrySkipsSpace` | lib/generalized_api/api.rb:199 | whitespace in front of a token does not change its entry |
| `Api.ExampleLeadingSpace` | lib/generalized_api/api.rb:198-203 | the token ` name` (as in `id, name`) orders by name descending |
| `Api.OrderParamsArrayExample` | lib/generalized_api/api.rb:195-205 | an Array `order_by` `["name desc"]` gives `[nil]` |
| `Api.OrderParamsExample` | lib/generalized_api/api.rb:195-205 | `name desc,bogus_col asc` with legal name and id gives `[{name => desc}, nil]` |
| `Api.FuzzyConditions` | lib/generalized_api/api.rb:165-171 | defines the conditions the loop adds, as a fold over the search pairs; its meaning is stated by `Api.FuzzyConditionsMeaning` |
| `Api.FuzzyConditionsMeaning` | lib/generalized_api/api.rb:165-171 | one condition per pair with a legal key and a String value, and none for any other pair |
| `Api.FuzzyConditionsAppend` | lib/generalized_api/api.rb:165 | search pairs are independent: the conditions of `a + b` are those of `a` then those of `b` |
| `Api.FuzzySkipsIllegal` | lib/generalized_api/api.rb:168-170 | an illegal pair is skipped and the pairs around it still apply |
| `Api.DoFuzzySearch` | lib/generalized_api/api.rb:176-183 | defines `do_fuzzy_search?`: a truthy `search` parameter that is a set of key-value pairs |
| `Api.ApplyFuzzySearches` | lib/generalized_api/api.rb:162-184 | without a `search` set of pairs the query is unchanged; otherwise it gains exactly the fuzzy conditions, in order |
| `Api.AddSearchConditions` | lib/generalized_api/api.rb:165-171 | the loop over the search pairs adds exactly the fuzzy conditions, in order, and keeps the model |
| `Api.RenderJson` | lib/generalized_api/api.rb:229-231 | the status as given; `:error` first and only there, holding the payload's own `:error` if it has one and the flag otherwise; the payload's other entries unchanged and in order; a payload without `:error` follows the flag whole |
| `Api.RenderProcessedEntity` | lib/generalized_api/api.rb:237-239 | status 200, the error flag false ahead of the payload |
| `Api.RenderUnprocessableEntity` | lib/generalized_api/api.rb:233-235 | status 422, the error flag true ahead of the payload |
| `Controller.PermitSpec` | lib/generalized_api/controller.rb:9-35 | defines `permit_params`: a Hash by singularised Symbol keys, an Array by the creating fold under the class's String key, a Symbol or String appended there, anything else raises |
| `Controller.HashRegistration` | lib/generalized_api/controller.rb:12-20 | a Hash registration appends each entry's fields under its singularised Symbol key; no String key changes |
| `Controller.ListRegistration` | lib/generalized_api/controller.rb:21-25 | an Array registration appends under the class's String key, succeeding exactly when every field has `to_sym`; other keys are unchanged |
| `Controller.ListKeepsDuplicates` | lib/generalized_api/controller.rb:26-31 | registering one field twice lists it twice |
| `Controller.FirstUndefined` | lib/generalized_api/controller.rb:155-156 | the names before the position are all defined and the name at it is not |
| `Controller.Invoke` | lib/generalized_api/controller.rb:153-165 | every callback before the first undefined name is called, in order, and the run stops at that name, which it reports; with all names defined, every callback is called |
| `Controller.Structure` | lib/generalized_api/controller.rb:139-143 | defines `callback_structure`: before-callbacks, the body, then after-callbacks unless the body returned early; its order is stated by `Controller.StructureOrder` and `Controller.BodyRunsOnce` |
| `Controller.StructureOrder` | lib/generalized_api/controller.rb:139-143 | all before-callbacks in order, the body, then all after-callbacks in order unless the body returned early |
| `Controller.BodyRunsOnce` | lib/generalized_api/controller.rb:139-143 | the body runs exactly when every before-callback is defined, once, after all of them |
| `Controller.SendEach` | lib/generalized_api/controller.rb:155-157 | the loop over a callback list computes `Invoke` |
| `Controller.ControllerState.constructor` | lib/generalized_api/controller.rb:7-10 | both registries start empty |
| `Controller.ControllerState.PermitParams` | lib/generalized_api/controller.rb:9-35 | the registry and the raised error are those of the registration specification; the callbacks are untouched |
| `Controller.ControllerState.RegisterPairs` | lib/generalized_api/controller.rb:12-20 | the Hash branch's nested loops compute `AppendPairs` with Symbol keys |
| `Controller.ControllerState.AppendFields` | lib/generalized_api/controller.rb:15-19 | the inner loop computes `AppendEach` |
| `Controller.ControllerState.AppendListFields` | lib/generalized_api/controller.rb:22-25 | the Array loop computes `AppendEachCreating` |
| `Controller.ControllerState.BeforeAction` | lib/generalized_api/controller.rb:37-40 | one name at the end of the class's before-list, whatever the options; the other lists and the registry are untouched |
| `Controller.ControllerState.ApplyFilter` | lib/generalized_api/controller.rb:42-45 | one name at the end of the class's filter list, whatever the options; the other lists and the registry are untouched |
| `Controller.ControllerState.AfterAction` | lib/generalized_api/controller.rb:47-50 | one name at the end of the class's after-list, whatever the options; the other lists and the registry are untouched |
| `Controller.ControllerState.Filters` | lib/generalized_api/controller.rb:145-151 | the input comes back unchanged for an unregistered class; otherwise it is threaded through every filter in order |
| `Controller.ControllerState.BeforeCallbacks` | lib/generalized_api/controller.rb:153-158 | no calls for an unregistered class, otherwise `Invoke` over the before-list |
| `Controller.ControllerState.AfterCallbacks` | lib/generalized_api/controller.rb:160-165 | no calls for an unregistered class, otherwise `Invoke` over the after-list |
| `Controller.ControllerState.CallbackStructure` | lib/generalized_api/controller.rb:139-143 | the run is the callback structure of the class's record; an unregistered class runs only the body |
| `Controller.AllowedForModel` | lib/generalized_api/controller.rb:222-223 | a list exists exactly when the plural or the singular symbol is registered, and it is the plural list followed by the singular one |
| `Controller.Whitelist` | lib/generalized_api/controller.rb:237 | every kept pair is an input pair, unchanged, with an allowed key and an approved class, and every such input pair is kept |
| `Controller.WhitelistIdempotent` | lib/generalized_api/controller.rb:237 | whitelisting twice keeps what whitelisting once kept |
| `Controller.WhitelistAppend` | lib/generalized_api/controller.rb:237 | pairs are judged one by one: the result on `a + b` is the result on `a` then on `b` |
| `Controller.SelectPermittedParams` | lib/generalized_api/controller.rb:233-241 | strong mode hands over the key and the list; otherwise a non-hash entry raises, a missing list raises for any pair, and the result is the whitelist |
| `Controller.PermittedParams` | lib/generalized_api/controller.rb:216-231 | a non-String model raises; nothing is permitted without the resource key |
| `Controller.PermittedFailsClosed` | lib/generalized_api/controller.rb:216-241 | every pair let through comes from the request unchanged, has an approved class, and has a key registered for the model (plural or singular) or, without a model, under the resource key |
| `Controller.PermittedLetsThrough` | lib/generalized_api/controller.rb:216-241 | in lenient mode every request pair with an approved class and a key registered for the model, or under the resource key without a model, gets through |
| `Controller.PermittedStrong` | lib/generalized_api/controller.rb:216-235 | with strong parameters, `permit` gets the resource key and the model's plural and singular lists, or without a model the list under the resource key |
| `Controller.HashFieldsNeedModel` | lib/generalized_api/controller.rb:17-18 | fields registered from a Hash are never found by a request without `model`, which then raises on any resource pair |
| `Controller.WhitelistExample` | lib/generalized_api.rb:15 | under the shipped classes, an allowed String and Integer pass while a disallowed key and a nested hash are dropped |
| `Controller.OrderParam` | lib/generalized_api/controller.rb:176-178 | `order_by` as given when present, `:id` otherwise; never nil |
| `Controller.RenderJson` | lib/generalized_api/controller.rb:188-194 | the payload alone under `restful_api`; otherwise `:error` first and only there, holding the payload's own `:error` if any and the flag otherwise, and the payload's other entries unchanged |
| `Controller.RenderProcessedEntity` | lib/generalized_api/controller.rb:200-202 | status 200, with the false error flag unless RESTful |
| `Controller.RenderUnprocessableEntity` | lib/generalized_api/controller.rb:196-198 | status 422, with the true error flag unless RESTful |
| `Controller.SearchPlanOf` | lib/generalized_api/controller.rb:123-134 | 422 with the error flag exactly when `search_field` or `search_string` is missing; a non-String search string raises; otherwise the condition binds the wildcarded string |

## Left out

- **ORM calls.** `where` (beyond the fuzzy conditions), `order`, `find`, `new`, `save`, `update`, `destroy`, `count` and `columns` belong to the ORM. The query is an opaque `Relation`, and the legal columns are a parameter.
- **The action bodies.** `index`, `show`, `create`, `update`, `destroy`, `count` and `operate_on_valid_object` are compositions of ORM calls and the modelled helpers. Only how a body leaves the callback structure (falling through or returning early, at controller.rb lines 87, 99 and 115) is modelled.
- **Pagination providers and gem detection.** `apply_pagination`, `paginate`, `page`/`per` and the load-time check that raises `MissingPaginationGemError` are foreign libraries and environment checks.
- **Rails plumbing.** Strong parameters' `require`/`permit` is represented only by the key and the list handed to it. `render`, `logger` and `puts` are left out, and so is memoisation with `@x ||=`.
- **Inflections.** `singularize`, `pluralize`, `tableize`, `titleize` and `constantize`, and the class-name manipulations built on them, are functions supplied by the caller. Every lemma holds for any choice.
- **Procs and handlers.** The `unless:`/`next:` procs are identifiers whose answers are a parameter. Filter and callback handlers are functions looked up by name, and callbacks are seen only as calls, so their side effects are not modelled.
- **Other option values.** An `only:`/`except:` value that is neither a name nor a list of names is not modelled, nor is a method name given to `apply_filter`/`before_action` without `to_sym`.
- **Uninitialised registry.** Reading `@@resource_params` before the first `permit_params` (a `NameError` in Ruby) is not modelled; the registries start as empty maps.
- **Raised exceptions.** Exceptions are modelled by which error they are, not by their message text.
- **Case folding.** `downcase` is modelled on ASCII letters only.
- `infer_params_from_models` reads the ORM's column list and is not part of this model.
- **The environment.** The search members take the pattern operator as their `like` string parameter; the library passes `DATABASE_LIKE`, which `Settings.DatabaseLike(production)` gives for either value of the `ENV` test. `Config.provideCountIndexHeader` is kept only because the shipped defaults set it: no code of the library reads it.
- Controller.SearchPlanOf: models only the precondition and the fuzzy condition of `search`; the `permitted_params` lookup that runs first and the rest of the query are not included.
- Controller.PermittedParams: its contract states only when the call raises for the model or permits nothing. What is let through is stated by `Controller.PermittedFailsClosed` (nothing else) together with `Controller.PermittedLetsThrough` (everything registered and approved), and what strong parameters receive by `Controller.PermittedStrong`.

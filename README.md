# transform-api packing engine, in Dafny

This project models the packing engine of the Laravel package
`transform-api`. A concrete transform declares its output keys
(`methodOutputKey()`) and one handler per key. `Transform::response` then
does the following:

- It validates the declarations. At most one output key may be `false`, and
  at most one input may be a paginator.
- It resolves every declared key in order. It looks up the input resource,
  runs the handler over it through `Resources::mapUnit`, and resolves the
  deferred closures in the result with `Resources::mapExecClosure`.
- It packs each result under the scratch key `virtual_pack`. When the
  definition asks for pagination output, a paginator input also gets a
  four-field counter block under the pagination pack.
- It merges the configured `additional` array first and renames
  `virtual_pack` to the configured `pack` at the end.

`Transform::quote` stops after packing and returns the `virtual_pack`
subtree.

The project is in five files:

- `wrappers.dfy`: `Option` and `Result`.
- `php_arrays.dfy` (module `PhpArrays`):
  - PHP values, with a PHP array as an ordered sequence of key/value entries;
  - the cast of a string offset to an integer key;
  - `$a[$k]`, `$a[$k] = $v`, `unset`, `end`/`key` and `array_merge`.
- `dot_path.dfy` (module `DotPath`): `explode('.')` and `Arr::set`, with a
  path reader to state what a write leaves behind.
- `containers.dfy` (module `Containers`):
  - the class `Resources`, with its in-place `deepSet`, `merge` and offset
    writes;
  - `mapUnit`;
  - the pointer walk `mapExecClosure`, proved to terminate and to equal
    "drop every remover entry".
- `transforms.dfy` (module `Transforms`):
  - the pipeline as pure functions (`ToTransformSpec`, `ResponseSpec`,
    `QuoteSpec`);
  - the class `Transform`, whose methods update its `transform` container
    step by step and are proved to agree with those functions;
  - the lemmas about the checks, the placement of data and counters, the
    rename, and the agreement of `response` with `quote`.

Two details follow the code where a reader might expect otherwise:

- **What counts as `false`.** The false-key count goes through
  `array_intersect`, which compares string forms. So a declared output key
  of `''` is counted as well as `false`: `IsFalseLike` counts `Root` and
  `Named("")`.
- **The not-found exception.** It carries a constant message, not the name
  of the missing key.

## Model

| member | source | states |
|---|---|---|
| Containers.Resources.constructor | src/Resources.php:18-29 | without any mutation, `get()` returns exactly the value the container was built with |
| Containers.Resources.Get | src/Resources.php:26-29 | the wrapped value, returned by value (an array reaches the caller as a copy, only an object handle is shared); in a valid container, one whose top level, when it is an array, has no duplicate keys |
| Containers.Resources.DeepSet | src/Resources.php:36-41 | the wrapped array becomes `Arr::set` of it at the dot path, and stays an array without duplicate keys |
| DotPath.SetPathThenGet | src/Resources.php:38 | after `Arr::set` at a path, reading the same path level by level yields the value written |
| DotPath.SetPathMakesArrays | src/Resources.php:38 | after `Arr::set`, every level above the last is an array, even where it was missing, null or a scalar |
| DotPath.SetPathOther | src/Resources.php:38 | top-level keys other than the path's first key read as before |
| DotPath.SetPathSiblings | src/Resources.php:38 | at every depth, a sibling of the path reads what it read before, or nothing when that level was not an array |
| DotPath.SetPathHeadOnly | src/Resources.php:38 | the value under the first key after the write depends only on what was under that key before |
| DotPath.SetPathKeys | src/Resources.php:38 | a write keeps the top-level key order; a new first key is appended last |
| DotPath.SetPathUniqueKeys | src/Resources.php:38 | a write never duplicates a key |
| DotPath.SplitDotsJoin | src/Resources.php:38 | splitting a path at its dots and joining the pieces gives back the path, and no piece holds a dot |
| DotPath.SplitDotsNone | src/Resources.php:38 | a path without a dot is a single segment |
| DotPath.SplitDotsConcat | src/Transform.php:153 | the segments of `a.b` are those of `a` followed by those of `b` |
| DotPath.PathKeysConcat | src/Transform.php:153 | the keys written for `virtual_pack.<key>` are `virtual_pack`'s followed by those of `<key>` |
| DotPath.PathKeysSingle | src/Transform.php:153 | a segment without a dot is written under its own key as an offset |
| Containers.Resources.Merge | src/Resources.php:47-51 | the wrapped array becomes `array_merge` of it with the data, without duplicate keys |
| PhpArrays.ArrayMergeStringKeys | src/Resources.php:49 | a string key of the second array takes its value there; any other string key keeps the first array's value |
| PhpArrays.ArrayMergeIntegerKeys | src/Resources.php:49 | the integer-keyed values of both arrays are all kept, first array first, renumbered 0, 1, 2, ...: none is overwritten |
| PhpArrays.ArrayMergeUniqueKeys | src/Resources.php:49 | the merge never has a key twice |
| Containers.MapUnit | src/Resources.php:58-67 | for a Collection, a paginator or a numeric list: a numeric list of the same length whose entry i is the callback on item i; for anything else: the callback on the resource itself |
| Containers.MapItems | src/Resources.php:61-63 | the mapped list has one entry per item, numbered in order, holding the callback of that item |
| Containers.MapUnitNoCalls | src/Resources.php:60-63 | over an empty list the callback is never looked at |
| Containers.Resources.MapExecClosure | src/Resources.php:72-92 | terminates; a non-array is left alone; an array loses exactly its remover entries and nothing else; the walk visits every original key once, in order |
| Containers.Resources.WalkOnce | src/Resources.php:80-89 | one turn of the loop keeps the walk invariant, and the measure (twice the array length minus the pointer) goes down unless the walk is done |
| Containers.WalkStarts | src/Resources.php:78 | the walk starts with nothing handled and `lastKey` the array's last key |
| Containers.WalkRemove | src/Resources.php:84-85 | a remover unsets its own key; the pointer, unmoved, now stands on the next entry; the walk ends if that key was the recorded last one |
| Containers.WalkKeep | src/Resources.php:87-88 | any other entry re-reads the last key and advances the pointer; the walk ends if this entry is the last one |
| Containers.WalkPastEnd | src/Resources.php:81-89 | once the pointer is past the end, `key()` is null and the walk stops having handled everything |
| Containers.WalkDone | src/Resources.php:89 | at the end, the array is the original without removers, and the visited keys are all the original keys |
| Containers.WalkPointer | src/Resources.php:81-82 | the pointer position stands on the first unhandled entry |
| Containers.WithoutRemoversMembers | src/Resources.php:84-85 | an entry survives exactly when it was there and is not a remover, and it survives unchanged |
| Containers.WithoutRemoversIsSubsequence | src/Resources.php:80-89 | the surviving entries keep their relative order |
| Containers.WithoutRemoversLookup | src/Resources.php:84-85 | a remover's key reads as absent afterwards, and every other key reads as before |
| Containers.WithoutRemoversKeys | src/Resources.php:80-89 | the walk adds no key |
| Containers.WithoutRemoversUniqueKeys | src/Resources.php:84-85 | deleting the removers keeps a PHP array free of duplicate keys |
| Containers.WithoutRemoversConcat | src/Resources.php:80-89 | the removals in two parts of an array are independent |
| Containers.ExecClosuresIdempotent | src/Resources.php:72-92 | running the walk a second time changes nothing more |
| Containers.ExecClosuresClean | src/Resources.php:72-92 | after the walk no remover is left at the top level, and a second walk changes nothing |
| PhpArrays.LastKey | src/Resources.php:98-102 | the last key of the array, which it holds, or null exactly when the array is empty |
| Containers.PropertyOfArray | src/Resources.php:108-115 | on an array, `__get` never raises and is null exactly when the name is absent or holds null |
| Containers.PropertyOf | src/Resources.php:108-115 | on a closure, the `Error` PHP raises (a closure has no properties); on any other object, its public property of that name, or null when it has none; on anything else, the entry under the name cast as an offset, or null when there is none |
| Containers.PropertyOfAfterSet | src/Resources.php:114 | a name written as an offset reads back through `__get` |
| Containers.PropertyOfAfterUnset | src/Resources.php:114 | a name unset as an offset reads as null through `__get` |
| Containers.Resources.OffsetSet | src/Transform.php:152 | the wrapped array becomes the array with the key written in place, or appended when new |
| Containers.Resources.OffsetUnset | src/Transform.php:114 | the wrapped array becomes the array without the key |
| PhpArrays.KeyOf | src/Transform.php:113 | a string offset becomes a string key exactly when it is not a canonical integer, and then it is the same string |
| PhpArrays.KeyOfIntToString | src/Transform.php:153 | an integer written into a path and used as an offset is stored under that integer |
| PhpArrays.PutSame | src/Transform.php:113 | after `$a[$k] = $v`, `$a[$k]` is `$v` |
| PhpArrays.PutOther | src/Transform.php:113 | `$a[$k] = $v` leaves every other key's value alone |
| PhpArrays.PutKeys | src/Transform.php:113 | `$a[$k] = $v` keeps the key order and appends a new key last |
| PhpArrays.RemoveSame | src/Transform.php:114 | after `unset($a[$k])` the key is gone |
| PhpArrays.RemoveOther | src/Transform.php:114 | `unset($a[$k])` leaves every other key's value alone |
| PhpArrays.RemoveAt | src/Resources.php:84-85 | unsetting the key at a position takes out that one entry and keeps the rest in order |
| PhpArrays.UniqueKeysAround | src/Resources.php:84-85 | in a PHP array the key at a position occurs nowhere else, before it or after it |
| PhpArrays.RemovePut | src/Transform.php:113-114 | writing a key and then unsetting it leaves the array as unsetting it alone does |
| PhpArrays.LookupHasKey | src/Transform.php:197-201 | a key is found exactly when the array holds it, with a value stored under it |
| Transforms.Transform.constructor | src/Transform.php:42-49 | a fresh input container holding the resources, a fresh empty output container, and the parameters and configuration kept |
| Transforms.Transform.Response | src/Transform.php:56-63 | `response` is `addAdditional`, then `toTransform`, then `packData`, and stops with the exception when one is raised |
| Transforms.Transform.Quote | src/Transform.php:70-76 | `quote` is `toTransform` on an empty output, then the `virtual_pack` entry, or the exception |
| Transforms.ResponseSucceeds | src/Transform.php:56-63 | with at most one `false` key, at most one paginator and every declaration resolvable, `response` succeeds and its output holds the pack key, unless the pack is named `virtual_pack` |
| Transforms.ResponseAndQuote | src/Transform.php:56-76 | for every configuration: the two entry points fail together and with the same exception, and `virtual_pack` is gone from the response; an `additional` string key other than `virtual_pack`, the pack key and the pagination key sits beside the data unchanged. When `additional` has no `virtual_pack` entry and the pack is not `virtual_pack`, the response holds under the pack key exactly the subtree `quote` returns |
| Transforms.When | src/Transform.php:83-90 | `when(false, a)` is the remover; `when(true, a)` is `a()` computed at once |
| Transforms.WhenResolved | src/Transform.php:83-90 | in a handler result, under the key of a `when`, after the closures are resolved: the key is gone for `false` and holds `a()` for `true` |
| Transforms.WhenOthers | src/Transform.php:86 | the remover deletes only its own key |
| Transforms.Transform.GetParameters | src/Transform.php:96-99 | null exactly when the key is absent or holds null; otherwise the parameter stored under the key |
| Transforms.Transform.AddAdditional | src/Transform.php:104-109 | the output becomes `array_merge` of it with the configured `additional` |
| Transforms.Transform.PackData | src/Transform.php:111-117 | the output becomes the one with the pack key set to the old `virtual_pack` and `virtual_pack` unset |
| Transforms.PackDataMoves | src/Transform.php:111-117 | after `packData`, `virtual_pack` is gone and every other top-level key than the pack key is unchanged; unless the pack is `virtual_pack`, the pack key holds what `virtual_pack` held |
| Transforms.PackDataSelf | src/Transform.php:113-114 | with the pack named `virtual_pack`, `packData` is exactly `unset` of `virtual_pack`: the data is deleted and nothing else changes |
| Transforms.Transform.ToTransform | src/Transform.php:130-142 | the false-key check, then the paginator check, then the walk over the declarations, with the output as the walk leaves it |
| Transforms.FalseKeyCount | src/Transform.php:225-226 | the count never exceeds the number of declarations; it is zero exactly when no declared output key is `false` (or `''`), and above one exactly when two of them are |
| Transforms.FalseKeyCheckFirst | src/Transform.php:223-229 | more than one `false` key raises OnlyOneFalseKey with that count before anything is written, whatever the inputs |
| Transforms.CountPaginators | src/Transform.php:234-238 | the count never exceeds the number of values; it is zero exactly when none is a paginator, and above one exactly when two are |
| Transforms.PaginatorCount | src/Transform.php:234-238 | no paginators are counted outside an array or a Collection; in an array or a Collection, the count is above one exactly when two values are paginators |
| Transforms.PaginatorCheckSecond | src/Transform.php:232-241 | with at most one `false` key, more than one paginator raises OnlyOnePaginatorData with that count before anything is written |
| Transforms.ChecksGuardWrites | src/Transform.php:130-139 | the output changes only when both checks pass |
| Transforms.Transform.EachResource | src/Transform.php:207-221 | the declarations are resolved and packed in order; the walk stops at the first exception, leaving what was packed before it |
| Transforms.Transform.EachOnce | src/Transform.php:209-219 | one declaration: on an exception, the output is unchanged; otherwise, the output is as the packing step leaves it |
| Transforms.RunConcat | src/Transform.php:209-220 | walking two lists of declarations is walking the first, then the second from where it stopped, unless the first raised |
| Transforms.NotFoundIsLazy | src/Transform.php:195-199 | a declaration whose input is missing raises NotFoundSpecifiedResource only when reached, after the earlier declarations are packed |
| Transforms.RunNotFoundHead | src/Transform.php:195-199 | a walk reaching a declaration whose input is missing stops there with NotFoundSpecifiedResource and the output as it was |
| Transforms.IndexedDeclIsSelfNamed | src/Transform.php:210 | a bare output key under an integer index is resolved like `key => key` |
| Transforms.ResolveShape | src/Transform.php:213-217 | the handler runs once per item of a list-shaped input and once for any other input, and each result has its removers deleted |
| Transforms.UndefinedHandlerOnlyWhenCalled | src/Transform.php:187 | a missing handler raises an exception exactly when `mapUnit` would call it |
| Transforms.MethodName | src/Transform.php:210 | an associative entry is looked up under its own key; an entry under an integer index is looked up by its value |
| Transforms.InputOf | src/Transform.php:195-202 | on an input array, a resource is found exactly when the array holds the method name as a key, and it is the value stored there; nothing is found in a scalar |
| Transforms.Callback | src/Transform.php:213-217 | with a handler, every result the callback gives has no remover left at its top level and is not changed by another walk |
| Transforms.Resolve | src/Transform.php:195-217 | NotFoundSpecifiedResource exactly when the input is missing; a value exactly when the input is there and the handler exists or is never called; no other exception |
| Transforms.Run | src/Transform.php:207-221 | when the walk raises, the exception is that of the first declaration that does not resolve; otherwise every declaration resolved |
| Transforms.ToTransformSpec | src/Transform.php:130-142 | success exactly when both checks pass and every declaration resolves; once both checks pass, any exception is the first unresolvable declaration's; the output changes only once both checks pass; an exception other than the two checks' comes from the first declaration that does not resolve |
| Transforms.Pack | src/Transform.php:135-139 | the data reads back at its path, unless the counters are written over it; a paginator's counters read back at the pagination path; plain packing adds no top-level key but `virtual_pack` |
| Transforms.Transform.PackOutputKey | src/Transform.php:149-156 | the output becomes the one with `virtual_pack` replaced for `false`, or written at `virtual_pack.<key>` |
| Transforms.PackOutputByPath | src/Transform.php:151-153 | both branches of `packOutputKey` are the dot-path write at `virtual_pack` or `virtual_pack.<key>` |
| Transforms.PackOutputRoot | src/Transform.php:152 | with `false`, `virtual_pack` is the data, discarding earlier named writes, and no other top-level key changes |
| Transforms.PackOutputNamed | src/Transform.php:153 | with a named key, the data is at `virtual_pack.<key>`; the other entries of `virtual_pack` and the other top-level keys are unchanged |
| Transforms.DataPathKeys | src/Transform.php:153 | the data path starts with `virtual_pack`, followed by the segments of the key |
| Transforms.VirtualPackPath | src/Transform.php:35 | `virtual_pack` is a single string key |
| Transforms.Transform.PackOutputKeyWithPagination | src/Transform.php:164-178 | the output becomes the data written at the data path, then the counter block at the pagination path |
| Transforms.PackWithPaginationPlacement | src/Transform.php:164-177 | for every configuration: the counter block is at `pagination_pack` or `pagination_pack.<key>`, and top-level keys other than `virtual_pack` and the pagination key are unchanged. When the pagination pack does not start with `virtual_pack`, the data also reads back where `packOutputKey` would place it, and `virtual_pack` is as `packOutputKey` leaves it |
| Transforms.PaginationPathHead | src/Transform.php:175 | both pagination paths start with the pagination pack's first key |
| Transforms.PaginationBlockFields | src/Transform.php:170-175 | the block holds the four counters under the configured names, a later name winning when two coincide |
| Transforms.PaginationBlockKeys | src/Transform.php:170-175 | with four distinct names, the block has exactly those four keys, in the order written |
| Transforms.PaginationBlock | src/Transform.php:170-175 | the block has no duplicate keys, holds the total under its name, and holds nothing but the four counters under the four configured names |
| Transforms.PackFrame | src/Transform.php:135-139 | a packing step touches only `virtual_pack` and the pagination pack's top-level key |
| Transforms.RunFrame | src/Transform.php:207-221 | the whole walk touches only `virtual_pack` and the pagination pack's top-level key |
| Transforms.PackHeadOnly | src/Transform.php:135-139 | for every configuration, the pagination pack inside `virtual_pack` included: what a packing step leaves under `virtual_pack` depends only on what was there |
| Transforms.RunHeadOnly | src/Transform.php:207-221 | for every configuration: the walk's exception and final `virtual_pack` depend only on the starting `virtual_pack` |
| Transforms.ToTransformHeadOnly | src/Transform.php:130-142 | for every configuration: `toTransform`'s exception and `virtual_pack` do not depend on the rest of the output |
| Transforms.RunErrorSame | src/Transform.php:207-221 | the walk's exception does not depend on the output array it starts from |
| Transforms.ToTransformErrorSame | src/Transform.php:130-142 | `toTransform`'s exception does not depend on the output array it starts from, so `response` and `quote` raise alike |
| Transforms.TwoFalseKeys | tests/Data/FailDataProvider.php:15-29 | two `false` keys raise OnlyOneFalseKey(2) with nothing packed |
| Transforms.TwoPaginators | tests/Data/FailDataProvider.php:31-48 | two paginator inputs raise OnlyOnePaginatorData(2) with nothing packed |

## Left out

- JSON encoding and the HTTP response (`toResponse`, `jsonSerialize`, `JsonResponse`). `response` is modelled up to the array it would encode.
- Transforms.Transform.Response: returns the output array, or the exception it raises, in place of a `JsonResponse`.
- Configuration loading with `config('api-transform')`. The configuration is a parameter (`Config`), with the pack, `additional`, the pagination pack and the four counter names.
- Dynamic dispatch through `'__' . Str::camel($methodName)`. Handlers are a map from the method name to a function, and camel-casing is not modelled. Calling a handler that does not exist is the error `UndefinedHandler`.
- Handlers do not receive the `Transform` object, and do not receive the per-record container. A handler is a function from the record's value to its result.
- Wrapping a handler result that is a `Resources` container. The result is taken as the wrapped value.
- Arbitrary closures inside a handler result. The only closure modelled is the remover that `when(false, ...)` returns, so mapExecClosure never runs forever.
- Containers.Resources.MapExecClosure: the walk is taken to start at the first entry. The source never calls `reset()`, so it starts wherever the array's internal pointer stands; that is the first entry for any array a handler builds afresh, but not for one whose pointer the handler has moved (with `end()` or `next()`).
- Containers.Resources.MapExecClosure: does not model closures other than the remover. A closure that returns null without deleting its own key makes the source loop forever. One that mutates the array and returns a value is not covered.
- PhpArrays.KeyOf: does not model the 64-bit integer range. PHP keeps a decimal string beyond `PHP_INT_MAX` as a string key.
- `is_numeric` on declaration keys. A string key such as `"1.5"` or `"1e3"` is treated as associative, where PHP would take the value as the method name.
- Transforms.PaginatorCount: counts paginators among the values of an array or the items of a Collection. Object properties, which `collect()` of an object would expose, are not counted.
- `toArray()` on the items `mapUnit` produces. Arrayable items are not converted, and a Collection is taken to be a list.
- The `DelegatesToResource` trait is not part of this model. `offsetGet`, `offsetSet`, `offsetExists` and `offsetUnset` are taken to act on the wrapped value as plain array operations. `offsetExists` is taken to mean the key exists, not `isset`.
- Property reads on Collections and paginators through their own `__get`. On them, `__get` gives null.
- The helper `is_numeric_list` is not part of this model. It is taken to hold for arrays keyed 0, 1, ..., n-1 in order, the empty array included.
- Floating-point values, resources and other PHP types the engine never inspects.
- Transforms.ResponseAndQuote: when `additional` itself holds a `virtual_pack` entry, `response` packs on top of that entry while `quote` starts from an empty array, so the two subtrees can differ and are not equated; with the pack named `virtual_pack` the response holds no pack key at all (PackDataSelf).
- Transforms.PackWithPaginationPlacement: for a pagination pack that starts with `virtual_pack`, the counters are written inside `virtual_pack` after the data, and where the data survives that write is not stated; the counter block and the frame are.
- PHP warnings, such as reading the missing `virtual_pack` when no declaration has packed anything. The value read is null.

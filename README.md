# Xamarin.Forms handler registrar, modelled in Dafny

This project models the handler registry of Xamarin.Forms
(`Xamarin.Forms.Core/Registrar.cs`). It covers two pieces:

- **`Registrar<TRegistrable>`** maps view types to handler (renderer) types.
  `Register` overwrites an entry. A null handler is a real value: it means the
  view type is known to have no handler. `GetHandlerType` first walks the view
  type's base-type chain, and the nearest type that has an entry wins, even a
  cached null. On a miss it reads the view type's `RenderWithAttribute`. A
  target whose name starts with `_` is a placeholder stub and gets exactly one
  more hop. The outcome, null or a type, is cached under the view type itself.
- **`Registrar.RegisterAll`** builds the assembly list. It takes the device
  assemblies, `Union`s them with `ExtraAssemblies` when that is not null, and
  swaps the default-renderer assembly into index 0. Then it scans every
  assembly. Each handler attribute whose `ShouldRegister()` is true calls
  `Registered.Register(HandlerType, TargetType)`. Each `ExportEffect` attribute
  writes `Effects[name + "." + Id] = Type`, where `name` is the
  `ResolutionGroupNameAttribute.ShortName` when there is one and the assembly's
  `FullName` otherwise. Later writes win.

Files and modules:

- `reflection.dfy` (`Reflection`): the reflection facts the registrar reads,
  as finite inputs. A `TypeRef` is an opaque id plus its simple name.
  `IsPlaceholder` is the `StartsWith("_")` test. A `TypeSystem` holds the
  base-type map, the `RenderWithAttribute` map, and a rank that shows every
  base-type chain is finite.
- `handlers.dfy` (`Handlers`): the `Registrar` class and its `_handlers` map,
  `map<TypeRef, Option<TypeRef>>`. An absent key was never looked up; `None`
  is a cached null. Beside the class are the specification functions `Chain`,
  `FirstHit`, `ResolveByAttribute` and `Resolve`, and lemmas about them.
- `sequences.dfy` (`Sequences`): LINQ `Union` and `Array.IndexOf`.
- `writes.dfy` (`Writes`): `Apply` runs a sequence of dictionary writes in
  order. This module proves last-write-wins.
- `scan.dfy` (`Scan`): the static `Registrar` as a class that owns
  `Registered`, `Effects` and `ExtraAssemblies`. `RegisterAll` is proved
  against `ScanOrder`, `HandlerWrites` and `EffectWrites`. Its body is split
  into three methods so that each proof stays small: `OrderAssemblies` (lines
  109-122), `RegisterHandlerAttributes` (lines 128-139) and `RegisterEffects`
  (lines 141-157).
- `scenario.dfy` (`Scenario`): a worked scan. A default-renderer assembly `P`
  is listed after a custom assembly `X`.

Four behaviours of the code that are easy to misread:

- The default-renderer assembly is swapped with the one at index 0, not moved
  to the front (lines 118-122). The assembly that was at index 0 takes the
  default one's old index. `PromoteDefaultSwaps` states this.
- `Union` runs only when `ExtraAssemblies` is not null (lines 110-113). Without
  extras, a duplicate in the device list is scanned twice.
  `MergeAssembliesElements` states both cases. `Union` and `Array.IndexOf`
  compare assemblies by reference, so every `Assembly` carries an identity,
  and a second load of an assembly is scanned as another assembly
  (`ScenarioSecondLoad`).
- Line 137 calls `Register(attribute.HandlerType, attribute.TargetType)`, so
  the attribute's `HandlerType` is the key. A null `TargetType` is stored as a
  cached null, which hides the view type's `RenderWithAttribute` and any base
  type's entry from later lookups.
- `Register` overwrites any entry, a cached null included (lines 14-17). Only
  `GetHandlerType` leaves existing entries alone (`ResolveKeepsEntries`).

## Model

| member | source | states |
|---|---|---|
| `Reflection.IsPlaceholder` | Xamarin.Forms.Core/Registrar.cs:52 | Defines the `type.Name.StartsWith("_")` test: the simple name is non-empty and begins with `_` |
| `Handlers.Chain` | Xamarin.Forms.Core/Registrar.cs:73-84 | The types the lookup loop visits: the view type first, each next one the `BaseType` of the one before, and the last one a root with no base type |
| `Handlers.FirstHit` | Xamarin.Forms.Core/Registrar.cs:75-87 | A miss exactly when no type of the chain is a key; otherwise the entry of the first type that is a key, even a null entry |
| `Handlers.Resolve` | Xamarin.Forms.Core/Registrar.cs:36-69 | Defines what `GetHandlerType` returns and the map it leaves: the nearest chain entry on a hit, unchanged map; otherwise the attribute outcome, cached under the view type; its properties are the `Resolve...` lemmas below |
| `Handlers.ResolveByAttribute` | Xamarin.Forms.Core/Registrar.cs:43-64 | A non-null result never has a `_`-prefixed name and is the attribute's target or, one hop further, the target's own attribute target; no attribute gives null; a non-placeholder target is returned as is |
| `Handlers.ResolveNearestEntry` | Xamarin.Forms.Core/Registrar.cs:36-40 | When some type of the chain has an entry, the nearest one's entry is returned (a cached null on a base type hides everything further up) and the map is left unchanged, with nothing added for the view type or the ancestors in between |
| `Handlers.ResolveMissCaches` | Xamarin.Forms.Core/Registrar.cs:42-68 | On a miss the attribute outcome is returned and stored under the view type itself, null included |
| `Handlers.ResolveKeepsEntries` | Xamarin.Forms.Core/Registrar.cs:36-68 | Resolution never changes an existing entry; the only key it can add is the view type, and on a miss it always adds it |
| `Handlers.ResolveIsMemoised` | Xamarin.Forms.Core/Registrar.cs:42-68 | An immediately repeated resolution hits in the lookup (the attribute is not read again), returns the same handler and changes nothing |
| `Handlers.ChainSuffix` | Xamarin.Forms.Core/Registrar.cs:73-84 | The chain the lookup walks from any type on a view type's chain is the rest of that chain from there |
| `Handlers.ResolvePreservesHit` | Xamarin.Forms.Core/Registrar.cs:36-68 | A `GetHandlerType` call for any view type keeps every lookup that already hits finding the same entry |
| `Handlers.ResolveEach` | Xamarin.Forms.Core/Registrar.cs:36-69 | Defines the handler map after `GetHandlerType` calls for a sequence of view types, one after another |
| `Handlers.HitSurvivesResolveEach` | Xamarin.Forms.Core/Registrar.cs:36-68 | A lookup that hits keeps hitting the same entry across any sequence of `GetHandlerType` calls |
| `Handlers.ResolveIsMemoisedAcross` | Xamarin.Forms.Core/Registrar.cs:42-68 | Once a view type is resolved, any number of `GetHandlerType` calls for other view types, with no `Register` in between, leave it hitting in the lookup and resolving to the same handler, with the map unchanged by that resolution |
| `Handlers.RegisterOverrides` | Xamarin.Forms.Core/Registrar.cs:14-17 | After `Register(viewType, h)`, resolving `viewType` returns `h`, whatever it or its ancestors had cached before |
| `Handlers.PlaceholderSecondHop` | Xamarin.Forms.Core/Registrar.cs:52-58 | A placeholder target whose own attribute names a non-placeholder type resolves to that type |
| `Handlers.PlaceholderOneHopOnly` | Xamarin.Forms.Core/Registrar.cs:52-63 | A placeholder target with no attribute of its own, or whose attribute names another placeholder, resolves to null: deeper chains are not followed |
| `Handlers.Registrar.constructor` | Xamarin.Forms.Core/Registrar.cs:12 | A new registrar starts with an empty handler map |
| `Handlers.Registrar.Register` | Xamarin.Forms.Core/Registrar.cs:14-17 | The entry for `tview` becomes `trender`, which may be null, overwriting any earlier value; every other entry is unchanged |
| `Handlers.Registrar.GetHandlerType` | Xamarin.Forms.Core/Registrar.cs:36-69 | Returns and leaves exactly what `Resolve` gives for the old map, and never changes an existing entry |
| `Handlers.Registrar.LookupHandlerType` | Xamarin.Forms.Core/Registrar.cs:71-88 | Returns true with the entry of the first chain type that is a key, even a null entry; returns false with null only when no chain type is a key; it modifies nothing |
| `Sequences.Distinct` | Xamarin.Forms.Core/Registrar.cs:112 | The result has no duplicates and holds exactly the elements of the input that are not already seen |
| `Sequences.Union` | Xamarin.Forms.Core/Registrar.cs:112 | `Union` has no duplicates and holds exactly the elements of both lists |
| `Sequences.DistinctKeepsPrefix` | Xamarin.Forms.Core/Registrar.cs:112 | A duplicate-free prefix that shares nothing with the seen set comes through deduplication unchanged and in place |
| `Sequences.UnionKeepsOrder` | Xamarin.Forms.Core/Registrar.cs:112 | When the first list has no duplicates, `Union` is that list followed by the new elements of the second list, in their order |
| `Sequences.IndexOf` | Xamarin.Forms.Core/Registrar.cs:116 | `Array.IndexOf` returns the first index that holds the element, or -1 exactly when the element is absent |
| `Writes.Apply` | Xamarin.Forms.Core/Registrar.cs:137 | Defines the dictionary after a sequence of indexer writes `d[k] = v`, performed in order |
| `Writes.ApplyConcat` | Xamarin.Forms.Core/Registrar.cs:126-158 | Performing two batches of writes one after the other is performing their concatenation |
| `Writes.ApplyLastWriteWins` | Xamarin.Forms.Core/Registrar.cs:155 | After a sequence of writes, a key holds the value of its last write |
| `Writes.ApplyUntouched` | Xamarin.Forms.Core/Registrar.cs:137 | A key that no write names keeps its old entry, or stays absent |
| `Scan.MergeAssemblies` | Xamarin.Forms.Core/Registrar.cs:109-113 | Defines the list before the swap: the device assemblies as they are, or their `Union` with `ExtraAssemblies` when that is not null |
| `Scan.MergeAssembliesElements` | Xamarin.Forms.Core/Registrar.cs:109-113 | Without `ExtraAssemblies` the device list is used as it is; with them, the merged list has no duplicates; either way it holds exactly the assemblies of the inputs |
| `Scan.MergeKeepsDeviceOrder` | Xamarin.Forms.Core/Registrar.cs:112 | A duplicate-free device list keeps its order at the front of the merge, and the new extra assemblies follow in their order |
| `Scan.PromoteDefault` | Xamarin.Forms.Core/Registrar.cs:116-122 | Defines the swap: at a positive `IndexOf`, index 0 gets the default-renderer assembly and its old index gets the one from index 0; otherwise the list is unchanged |
| `Scan.PromoteDefaultSwaps` | Xamarin.Forms.Core/Registrar.cs:116-122 | At a positive index i, the default-renderer assembly and the one at index 0 trade places and only positions 0 and i change; at index 0 or absent, the list is unchanged |
| `Scan.PromoteDefaultPermutes` | Xamarin.Forms.Core/Registrar.cs:118-122 | The swap is a permutation of the merged list |
| `Scan.ScanOrder` | Xamarin.Forms.Core/Registrar.cs:107-122 | Defines the scanned list, which is also the one handed to `DependencyService.Initialize`: the merge followed by the swap |
| `Scan.ScanOrderIsMergePermutation` | Xamarin.Forms.Core/Registrar.cs:109-122 | The scan order is a permutation of the merged list, has no duplicates when extras were merged, and starts with the default-renderer assembly whenever it is present |
| `Scan.AttributeWrites` | Xamarin.Forms.Core/Registrar.cs:134-138 | Defines the `Register(HandlerType, TargetType)` calls of one attribute list, in list order, one for each attribute whose `ShouldRegister()` is true, a null `TargetType` included |
| `Scan.AssemblyWrites` | Xamarin.Forms.Core/Registrar.cs:128-139 | Defines one assembly's registrations, attribute type by attribute type in the order of `attrTypes` |
| `Scan.HandlerWrites` | Xamarin.Forms.Core/Registrar.cs:126-139 | Defines the scan's registrations, assembly by assembly in scan order |
| `Scan.AttributeWritesGated` | Xamarin.Forms.Core/Registrar.cs:134-138 | An attribute list registers a view/target pair, a null target included, exactly when one of its attributes carries that pair and answers `ShouldRegister()` with true |
| `Scan.AssemblyWritesFromAttrTypes` | Xamarin.Forms.Core/Registrar.cs:128-139 | An assembly makes a registration exactly when the attributes of one of the scanned attribute types make it |
| `Scan.HandlerWritesFromAssemblies` | Xamarin.Forms.Core/Registrar.cs:126-139 | The scan makes a registration exactly when one of the scanned assemblies makes it |
| `Scan.ScanRegistersIffShouldRegister` | Xamarin.Forms.Core/Registrar.cs:126-139 | `Register(view, target)` is called if and only if a scanned assembly carries, under a scanned attribute type, an attribute with that pair whose `ShouldRegister()` is true; a null `TargetType` is registered as a cached null like any other target |
| `Scan.ResolutionName` | Xamarin.Forms.Core/Registrar.cs:141-150 | Defines the key prefix: the `ShortName` of the assembly's `ResolutionGroupNameAttribute` when it has one, otherwise its `FullName` |
| `Scan.EffectWritesOf` | Xamarin.Forms.Core/Registrar.cs:152-156 | Defines one assembly's effect writes: `name + "." + Id` mapped to `Type` (null included), effect by effect in order |
| `Scan.EffectWrites` | Xamarin.Forms.Core/Registrar.cs:126-157 | Defines the scan's effect writes, assembly by assembly in scan order, each under its resolution name |
| `Scan.EffectWritesOfKeys` | Xamarin.Forms.Core/Registrar.cs:152-156 | The writes for one assembly are exactly `name + "." + Id` mapped to `Type`, one for each of its effects |
| `Scan.ScanEffectKeys` | Xamarin.Forms.Core/Registrar.cs:141-157 | The scan writes `Effects[key] = type` exactly when a scanned assembly exports an effect of that type and `key` is its id qualified by the assembly's `ShortName`, or by its `FullName` when it has no group name |
| `Scan.Registrar.constructor` | Xamarin.Forms.Core/Registrar.cs:93-101 | `Registered` is a fresh empty registrar, `Effects` is empty and `ExtraAssemblies` is null |
| `Scan.Registrar.RegisterAll` | Xamarin.Forms.Core/Registrar.cs:107-161 | Returns the list handed to `DependencyService.Initialize`, which is the merged and swapped scan order; the handler map and the effects map end up as their old contents with every registration and effect write of that order applied in order |
| `Scan.Registrar.OrderAssemblies` | Xamarin.Forms.Core/Registrar.cs:109-122 | A fresh array holding the merged assembly list with the default-renderer assembly swapped into index 0 |
| `Scan.Registrar.RegisterHandlerAttributes` | Xamarin.Forms.Core/Registrar.cs:128-139 | The handler map receives one assembly's registrations, attribute type by attribute type and attribute by attribute, in order |
| `Scan.Registrar.RegisterEffects` | Xamarin.Forms.Core/Registrar.cs:141-157 | The effects map receives one assembly's effect writes, keyed under its resolution name, in order |
| `Scenario.ScenarioOrder` | Xamarin.Forms.Core/Registrar.cs:116-122 | Scanning `[X, P]` with `P` as the default-renderer assembly scans `[P, X]` |
| `Scenario.ScenarioSecondLoad` | Xamarin.Forms.Core/Registrar.cs:110-113 | A second load of `X` with the same contents is another object, so `Union` keeps it and it is scanned last, after the swap |
| `Scenario.ScenarioHandlers` | Xamarin.Forms.Core/Registrar.cs:126-139 | `X` is scanned after `P`, so its registration for `ViewA` wins and resolving `ViewA` gives `X`'s renderer |
| `Scenario.ScenarioEffects` | Xamarin.Forms.Core/Registrar.cs:141-157 | An assembly named `X` with no group name exports `Glow` under the key `"X.Glow"` |

## Left out

- `GetHandler` and `GetHandler<TOut>` (lines 19-33) are not modelled. They create an instance with `Activator.CreateInstance` and cast it, and the model stops at handler types. The `TRegistrable` type parameter is only used there, so the model drops it.
- Reflection itself is not modelled: `BaseType`, `GetCustomAttribute`, `Type.Name` and `Assembly.GetCustomAttributes` become fixed, finite inputs. `GetCustomAttributes(attrType)` is a per-assembly map from attribute type to attribute list. Matching derived attribute types is not modelled.
- `Device.GetAssemblies()` and `Device.PlatformServices` are foreign calls. Their results are the parameters `devices` and `defaultRendererAssembly`. The model copies the device list into a fresh array, so whether the swap also changes the platform's own array is not captured.
- `DependencyService.Initialize` is a downstream black box. `RegisterAll` returns the list it would receive.
- The static constructor and the global `Registered`/`Effects` singletons become the state of a `Scan.Registrar` object.
- Exceptions are not modelled. This covers a null view type, a null `HandlerType` passed to `Register`, a null `RenderWithAttribute.Type` (whose `Name` is read), an attribute type in `attrTypes` that is not a `HandlerAttribute` (an invalid cast), more than one `ResolutionGroupNameAttribute` (an ambiguous match), and an assembly that cannot be read, which aborts the scan.
- `StartsWith("_")` is modelled as "the first character is `_`". Culture-sensitive comparison is not modelled.
- `Xamarin.Forms.Core/DelegateLogListener.cs` is a null check plus a call to a caller-supplied delegate. It is not modelled.
- Thread safety is not modelled. The source has no locking.

/** The static `Registrar`: `RegisterAll` merges the device assemblies with
    `ExtraAssemblies`, swaps the default-renderer assembly to the front, and
    scans every assembly's handler attributes into `Registered` and its
    `ExportEffect` attributes into `Effects`. */
module Scan {
  import opened Reflection
  import opened Sequences
  import opened Writes
  import Handlers

  /** A `HandlerAttribute` (such as `ExportRenderer`) as reflection returns
      it; `shouldRegister` is what its `ShouldRegister()` answers in the
      running environment. Its `TargetType` may be null (`None`). */
  datatype HandlerAttribute = HandlerAttribute(handlerType: TypeRef, targetType: Option<TypeRef>, shouldRegister: bool)

  /** An `ExportEffectAttribute`: the effect's `Id` (a null `Id` is the empty
      string, which is what `+` makes of it) and its `Type`, which may be
      null. */
  datatype ExportEffect = ExportEffect(id: string, effectType: Option<TypeRef>)

  /** A loaded assembly, by what the scan reads of it. `id` is the object's
      identity: `Union` and `Array.IndexOf` compare assemblies by reference,
      so two loads with the same contents are still two assemblies. The rest
      is its `FullName`, its handler attributes per attribute type, its
      `ExportEffect` attributes and the `ShortName` of its
      `ResolutionGroupNameAttribute`, if any. */
  datatype Assembly = Assembly(
    id: nat,
    fullName: string,
    handlerAttributes: map<TypeRef, seq<HandlerAttribute>>,
    effects: seq<ExportEffect>,
    resolutionGroupName: Option<string>)

  /** `assembly.GetCustomAttributes(attrType)` for a handler attribute type. */
  function GetCustomAttributes(assembly: Assembly, attrType: TypeRef): seq<HandlerAttribute>
  {
    if attrType in assembly.handlerAttributes then assembly.handlerAttributes[attrType] else []
  }

  // ---------------------------------------------------------------------------
  // Scan order

  /** The assembly list before the swap: the device assemblies, united with
      `ExtraAssemblies` when that is not null. */
  function MergeAssemblies(devices: seq<Assembly>, extra: Option<seq<Assembly>>): seq<Assembly>
  {
    match extra
    case None => devices
    case Some(more) => Union(devices, more)
  }

  /** Without `ExtraAssemblies` the device list is scanned as it is,
      duplicates included; with them, every assembly of either list is
      scanned once. */
  lemma MergeAssembliesElements(devices: seq<Assembly>, extra: Option<seq<Assembly>>)
    ensures extra.None? ==> MergeAssemblies(devices, extra) == devices
    ensures extra.Some? ==> NoDuplicates(MergeAssemblies(devices, extra))
    ensures forall a :: a in MergeAssemblies(devices, extra) <==> a in devices || (extra.Some? && a in extra.value)
  {
  }

  /** The device assemblies keep their order at the front of the merge, when
      the device list has no duplicates of its own. */
  lemma MergeKeepsDeviceOrder(devices: seq<Assembly>, extra: seq<Assembly>)
    requires NoDuplicates(devices)
    ensures MergeAssemblies(devices, Some(extra)) == devices + Distinct(extra, Elements(devices))
  {
    UnionKeepsOrder(devices, extra);
  }

  /** Swap the default-renderer assembly with the one at index 0, when it
      sits at a positive index. */
  function PromoteDefault(s: seq<Assembly>, default: Assembly): seq<Assembly>
  {
    var i := IndexOf(s, default);
    if i > 0 then s[i := s[0]][0 := default] else s
  }

  /** The swap: the default-renderer assembly moves to index 0 and the
      assembly it displaces takes its old index; every other position keeps
      its assembly. At index 0 already, or absent, nothing moves. */
  lemma PromoteDefaultSwaps(s: seq<Assembly>, default: Assembly)
    ensures |PromoteDefault(s, default)| == |s|
    ensures IndexOf(s, default) <= 0 ==> PromoteDefault(s, default) == s
    ensures default in s ==> PromoteDefault(s, default)[0] == default
    ensures IndexOf(s, default) > 0 ==> PromoteDefault(s, default)[IndexOf(s, default)] == s[0]
    ensures forall j :: 0 < j < |s| && j != IndexOf(s, default) ==> PromoteDefault(s, default)[j] == s[j]
  {
  }

  /** The swap is a permutation of the merged list. */
  lemma PromoteDefaultPermutes(s: seq<Assembly>, default: Assembly)
    ensures multiset(PromoteDefault(s, default)) == multiset(s)
  {
  }

  /** The list scanned and then handed to `DependencyService.Initialize`. */
  function ScanOrder(devices: seq<Assembly>, extra: Option<seq<Assembly>>, default: Assembly): seq<Assembly>
  {
    PromoteDefault(MergeAssemblies(devices, extra), default)
  }

  /** The scan order holds each merged assembly once, and the default-renderer
      assembly, when present, comes first. */
  lemma ScanOrderIsMergePermutation(devices: seq<Assembly>, extra: Option<seq<Assembly>>, default: Assembly)
    ensures multiset(ScanOrder(devices, extra, default)) == multiset(MergeAssemblies(devices, extra))
    ensures extra.Some? ==> NoDuplicates(ScanOrder(devices, extra, default))
    ensures (default in devices || (extra.Some? && default in extra.value))
            ==> ScanOrder(devices, extra, default)[0] == default
  {
  }

  // ---------------------------------------------------------------------------
  // Handler registrations

  /** A write into the handler map: `Register(key, value)`, a null value
      included. */
  type HandlerWrite = (TypeRef, Option<TypeRef>)

  /** The `Register(HandlerType, TargetType)` calls one attribute list makes:
      one per attribute whose `ShouldRegister()` is true, in list order. */
  function AttributeWrites(attributes: seq<HandlerAttribute>): seq<HandlerWrite>
  {
    if |attributes| == 0 then []
    else
      var a := attributes[|attributes| - 1];
      AttributeWrites(attributes[..|attributes| - 1])
      + (if a.shouldRegister then [(a.handlerType, a.targetType)] else [])
  }

  /** The registrations of one assembly, attribute type by attribute type. */
  function AssemblyWrites(assembly: Assembly, attrTypes: seq<TypeRef>): seq<HandlerWrite>
  {
    if |attrTypes| == 0 then []
    else
      AssemblyWrites(assembly, attrTypes[..|attrTypes| - 1])
      + AttributeWrites(GetCustomAttributes(assembly, attrTypes[|attrTypes| - 1]))
  }

  /** The registrations of the whole scan, assembly by assembly. */
  function HandlerWrites(assemblies: seq<Assembly>, attrTypes: seq<TypeRef>): seq<HandlerWrite>
  {
    if |assemblies| == 0 then []
    else
      HandlerWrites(assemblies[..|assemblies| - 1], attrTypes)
      + AssemblyWrites(assemblies[|assemblies| - 1], attrTypes)
  }

  /** Gating: an attribute list registers `(view, target)` exactly when one of
      its attributes pairs them and answers `ShouldRegister()` with true. */
  lemma {:induction false} AttributeWritesGated(attributes: seq<HandlerAttribute>, view: TypeRef, target: Option<TypeRef>)
    ensures (view, target) in AttributeWrites(attributes)
            <==> exists a :: a in attributes && a.shouldRegister && a.handlerType == view && a.targetType == target
    decreases |attributes|
  {
    if |attributes| > 0 {
      var init := attributes[..|attributes| - 1];
      var last := attributes[|attributes| - 1];
      assert attributes == init + [last];
      AttributeWritesGated(init, view, target);
    }
  }

  /** An assembly registers `w` exactly when the attributes of one of the
      scanned attribute types do. */
  lemma {:induction false} AssemblyWritesFromAttrTypes(assembly: Assembly, attrTypes: seq<TypeRef>, w: HandlerWrite)
    ensures w in AssemblyWrites(assembly, attrTypes)
            <==> exists t :: t in attrTypes && w in AttributeWrites(GetCustomAttributes(assembly, t))
    decreases |attrTypes|
  {
    if |attrTypes| > 0 {
      var init := attrTypes[..|attrTypes| - 1];
      assert attrTypes == init + [attrTypes[|attrTypes| - 1]];
      AssemblyWritesFromAttrTypes(assembly, init, w);
    }
  }

  /** The scan registers `w` exactly when one of the scanned assemblies does. */
  lemma {:induction false} HandlerWritesFromAssemblies(assemblies: seq<Assembly>, attrTypes: seq<TypeRef>, w: HandlerWrite)
    ensures w in HandlerWrites(assemblies, attrTypes)
            <==> exists a :: a in assemblies && w in AssemblyWrites(a, attrTypes)
    decreases |assemblies|
  {
    if |assemblies| > 0 {
      var init := assemblies[..|assemblies| - 1];
      var last := assemblies[|assemblies| - 1];
      assert assemblies == init + [last];
      HandlerWritesFromAssemblies(init, attrTypes, w);
      if w in HandlerWrites(assemblies, attrTypes) {
        if w in HandlerWrites(init, attrTypes) {
          var a :| a in init && w in AssemblyWrites(a, attrTypes);
          assert a in assemblies;
        } else {
          assert last in assemblies && w in AssemblyWrites(last, attrTypes);
        }
      }
    }
  }

  /** The scan calls `Register(view, target)` if and only if some scanned
      assembly carries, under a scanned attribute type, a handler attribute
      pairing them whose `ShouldRegister()` is true; a null target is
      registered like any other. */
  lemma ScanRegistersIffShouldRegister(assemblies: seq<Assembly>, attrTypes: seq<TypeRef>, view: TypeRef, target: Option<TypeRef>)
    ensures (view, target) in HandlerWrites(assemblies, attrTypes)
            <==> exists a, t, h :: a in assemblies && t in attrTypes && h in GetCustomAttributes(a, t)
                                   && h.shouldRegister && h.handlerType == view && h.targetType == target
  {
    var w: HandlerWrite := (view, target);
    HandlerWritesFromAssemblies(assemblies, attrTypes, w);
    forall a | a in assemblies
      ensures w in AssemblyWrites(a, attrTypes)
              <==> exists t, h :: t in attrTypes && h in GetCustomAttributes(a, t)
                                  && h.shouldRegister && h.handlerType == view && h.targetType == target
    {
      AssemblyWritesFromAttrTypes(a, attrTypes, w);
      forall t | t in attrTypes
        ensures w in AttributeWrites(GetCustomAttributes(a, t))
                <==> exists h :: h in GetCustomAttributes(a, t)
                                 && h.shouldRegister && h.handlerType == view && h.targetType == target
      {
        AttributeWritesGated(GetCustomAttributes(a, t), view, target);
      }
    }
  }

  // ---------------------------------------------------------------------------
  // Effects

  /** The prefix of an assembly's effect keys: the `ShortName` of its
      `ResolutionGroupNameAttribute` if it has one, else its `FullName`. */
  function ResolutionName(assembly: Assembly): string
  {
    match assembly.resolutionGroupName
    case Some(shortName) => shortName
    case None => assembly.fullName
  }

  /** A write into the effects map: `Effects[key] = type`. */
  type EffectWrite = (string, Option<TypeRef>)

  /** `Effects[name + "." + effect.Id] = effect.Type` for each effect, in
      order. */
  function EffectWritesOf(name: string, effects: seq<ExportEffect>): seq<EffectWrite>
  {
    if |effects| == 0 then []
    else
      var e := effects[|effects| - 1];
      EffectWritesOf(name, effects[..|effects| - 1]) + [(name + "." + e.id, e.effectType)]
  }

  /** The effect writes of the whole scan, assembly by assembly. */
  function EffectWrites(assemblies: seq<Assembly>): seq<EffectWrite>
  {
    if |assemblies| == 0 then []
    else
      var a := assemblies[|assemblies| - 1];
      EffectWrites(assemblies[..|assemblies| - 1]) + EffectWritesOf(ResolutionName(a), a.effects)
  }

  /** Each effect write of a list is `name + "." + Id` mapped to the effect's
      `Type`, for one of its effects, and every effect is written. */
  lemma {:induction false} EffectWritesOfKeys(name: string, effects: seq<ExportEffect>, w: EffectWrite)
    ensures w in EffectWritesOf(name, effects)
            <==> exists e :: e in effects && w == (name + "." + e.id, e.effectType)
    decreases |effects|
  {
    if |effects| > 0 {
      var init := effects[..|effects| - 1];
      assert effects == init + [effects[|effects| - 1]];
      EffectWritesOfKeys(name, init, w);
    }
  }

  /** The scan writes `Effects[key] = type` exactly when some scanned assembly
      exports an effect of that type whose id, qualified by the assembly's
      resolution name, is `key`. */
  lemma {:induction false} ScanEffectKeys(assemblies: seq<Assembly>, w: EffectWrite)
    ensures w in EffectWrites(assemblies)
            <==> exists a, e :: a in assemblies && e in a.effects
                                && w == (ResolutionName(a) + "." + e.id, e.effectType)
    decreases |assemblies|
  {
    if |assemblies| > 0 {
      var init := assemblies[..|assemblies| - 1];
      var last := assemblies[|assemblies| - 1];
      assert assemblies == init + [last];
      ScanEffectKeys(init, w);
      EffectWritesOfKeys(ResolutionName(last), last.effects, w);
    }
  }

  // ---------------------------------------------------------------------------

  class Registrar {
    /** `Registrar.Registered`, created by the static constructor. */
    const registered: Handlers.Registrar
    /** `Registrar.Effects`; a null effect `Type` is stored as `None`. */
    var effects: map<string, Option<TypeRef>>
    /** `Registrar.ExtraAssemblies`; `None` is null. */
    var extraAssemblies: Option<seq<Assembly>>

    constructor()
      ensures fresh(registered) && registered.handlers == map[]
      ensures effects == map[] && extraAssemblies == None
    {
      registered := new Handlers.Registrar();
      effects := map[];
      extraAssemblies := None;
    }

    /** Scans `Device.GetAssemblies()` (`devices`) and `ExtraAssemblies` for
        the attribute types `attrTypes`; `defaultRendererAssembly` is the
        assembly of `Device.PlatformServices`. Returns the list handed to
        `DependencyService.Initialize`. */
    method RegisterAll(devices: seq<Assembly>, defaultRendererAssembly: Assembly, attrTypes: seq<TypeRef>)
      returns (initialized: seq<Assembly>)
      modifies this`effects, registered
      ensures initialized == ScanOrder(devices, extraAssemblies, defaultRendererAssembly)
      ensures registered.handlers == Apply(old(registered.handlers), HandlerWrites(initialized, attrTypes))
      ensures effects == Apply(old(effects), EffectWrites(initialized))
    {
      var assemblies := OrderAssemblies(devices, defaultRendererAssembly);
      ghost var order := assemblies[..];

      for i := 0 to assemblies.Length
        modifies this`effects, registered
        invariant registered.handlers == Apply(old(registered.handlers), HandlerWrites(order[..i], attrTypes))
        invariant effects == Apply(old(effects), EffectWrites(order[..i]))
      {
        var assembly := assemblies[i];
        assert order[..i + 1] == order[..i] + [assembly];
        RegisterHandlerAttributes(assembly, attrTypes);
        ApplyConcat(old(registered.handlers), HandlerWrites(order[..i], attrTypes), AssemblyWrites(assembly, attrTypes));
        RegisterEffects(assembly);
        ApplyConcat(old(effects), EffectWrites(order[..i]), EffectWritesOf(ResolutionName(assembly), assembly.effects));
      }

      assert order[..assemblies.Length] == order;
      initialized := assemblies[..];
    }

    /** The assembly list of the scan: the device assemblies, united with
        `ExtraAssemblies` when that is not null, with the default-renderer
        assembly swapped into index 0. */
    method OrderAssemblies(devices: seq<Assembly>, defaultRendererAssembly: Assembly)
      returns (assemblies: array<Assembly>)
      ensures fresh(assemblies)
      ensures assemblies[..] == ScanOrder(devices, extraAssemblies, defaultRendererAssembly)
    {
      var merged := devices;
      if extraAssemblies.Some? {
        merged := Union(devices, extraAssemblies.value);
      }
      assemblies := new Assembly[|merged|](k requires 0 <= k < |merged| => merged[k]);
      ghost var unswapped := assemblies[..];
      assert unswapped == merged == MergeAssemblies(devices, extraAssemblies);

      var indexOfExecuting := IndexOf(assemblies[..], defaultRendererAssembly);
      if indexOfExecuting > 0 {
        assemblies[indexOfExecuting] := assemblies[0];
        assemblies[0] := defaultRendererAssembly;
        assert assemblies[..] == unswapped[indexOfExecuting := unswapped[0]][0 := defaultRendererAssembly];
      }
    }

    /** The handler half of the scan of one assembly: for each attribute type,
        `Register(HandlerType, TargetType)` for each of its attributes whose
        `ShouldRegister()` is true. */
    method RegisterHandlerAttributes(assembly: Assembly, attrTypes: seq<TypeRef>)
      modifies registered
      ensures registered.handlers == Apply(old(registered.handlers), AssemblyWrites(assembly, attrTypes))
    {
      for j := 0 to |attrTypes|
        invariant registered.handlers == Apply(old(registered.handlers), AssemblyWrites(assembly, attrTypes[..j]))
      {
        assert attrTypes[..j + 1][..j] == attrTypes[..j];
        var attributes := GetCustomAttributes(assembly, attrTypes[j]);
        assert AssemblyWrites(assembly, attrTypes[..j + 1])
               == AssemblyWrites(assembly, attrTypes[..j]) + AttributeWrites(attributes);
        if |attributes| == 0 {
          assert AssemblyWrites(assembly, attrTypes[..j + 1]) == AssemblyWrites(assembly, attrTypes[..j]);
          continue;
        }
        ghost var beforeType := registered.handlers;
        for k := 0 to |attributes|
          invariant registered.handlers == Apply(beforeType, AttributeWrites(attributes[..k]))
        {
          var attribute := attributes[k];
          assert attributes[..k + 1][..k] == attributes[..k];
          assert AttributeWrites(attributes[..k + 1]) == AttributeWrites(attributes[..k])
                 + (if attribute.shouldRegister then [(attribute.handlerType, attribute.targetType)] else []);
          if attribute.shouldRegister {
            ApplySnoc(beforeType, AttributeWrites(attributes[..k]), (attribute.handlerType, attribute.targetType));
            registered.Register(attribute.handlerType, attribute.targetType);
          } else {
            assert AttributeWrites(attributes[..k + 1]) == AttributeWrites(attributes[..k]);
          }
        }
        assert attributes[..|attributes|] == attributes;
        ApplyConcat(old(registered.handlers), AssemblyWrites(assembly, attrTypes[..j]), AttributeWrites(attributes));
      }
      assert attrTypes[..|attrTypes|] == attrTypes;
    }

    /** The effect half of the scan of one assembly: when it exports effects,
        `Effects[name + "." + Id] = Type` for each, `name` being its
        resolution name. */
    method RegisterEffects(assembly: Assembly)
      modifies this`effects
      ensures effects == Apply(old(effects), EffectWritesOf(ResolutionName(assembly), assembly.effects))
    {
      var resolutionName := assembly.fullName;
      var effectAttributes := assembly.effects;
      if |effectAttributes| > 0 {
        if assembly.resolutionGroupName.Some? {
          resolutionName := assembly.resolutionGroupName.value;
        }
        for k := 0 to |effectAttributes|
          invariant effects == Apply(old(effects), EffectWritesOf(resolutionName, effectAttributes[..k]))
        {
          var effect := effectAttributes[k];
          assert effectAttributes[..k + 1][..k] == effectAttributes[..k];
          assert EffectWritesOf(resolutionName, effectAttributes[..k + 1])
                 == EffectWritesOf(resolutionName, effectAttributes[..k]) + [(resolutionName + "." + effect.id, effect.effectType)];
          ApplySnoc(old(effects), EffectWritesOf(resolutionName, effectAttributes[..k]),
                    (resolutionName + "." + effect.id, effect.effectType));
          effects := effects[resolutionName + "." + effect.id := effect.effectType];
        }
        assert effectAttributes[..|effectAttributes|] == effectAttributes;
      }
    }
  }
}

/** A worked scan: `P` is the default-renderer assembly but is listed after
    `X`; both register a renderer for `ViewA`, and `X` exports a `Glow`
    effect under its own name. */
module Scenario {
  import opened Reflection
  import opened Sequences
  import opened Writes
  import opened Scan
  import Handlers

  const ExportRenderer := TypeRef(0, "ExportRendererAttribute")
  const ViewA := TypeRef(1, "ViewA")
  const RendererP := TypeRef(2, "RendererP")
  const RendererX := TypeRef(3, "RendererX")
  const GlowEffect := TypeRef(4, "GlowEffect")

  const P := Assembly(0, "P", map[ExportRenderer := [HandlerAttribute(ViewA, Some(RendererP), true)]], [], None)
  const X := Assembly(1, "X", map[ExportRenderer := [HandlerAttribute(ViewA, Some(RendererX), true)]],
                      [ExportEffect("Glow", Some(GlowEffect))], None)
  /** A second load of `X`: the same contents, another object. */
  const X2 := Assembly(2, "X", X.handlerAttributes, X.effects, None)

  /** The default-renderer assembly is swapped to the front. */
  lemma ScenarioOrder()
    ensures ScanOrder([X, P], None, P) == [P, X]
  {
  }

  /** `Union` keeps a second load of an assembly: it is another object, so
      it is scanned after the device assemblies and its registrations come
      last. */
  lemma ScenarioSecondLoad()
    ensures ScanOrder([X, P], Some([X2]), P) == [P, X, X2]
  {
    assert NoDuplicates([X, P]);
    MergeKeepsDeviceOrder([X, P], [X2]);
    assert X2 !in Elements([X, P]);
    assert [X2][1..] == [];
    assert Distinct([X2], Elements([X, P])) == [X2];
    assert [X, P] + [X2] == [X, P, X2];
  }

  /** The scan of two assemblies is the first one's registrations, then the
      second one's. */
  lemma TwoAssemblyWrites(a: Assembly, b: Assembly, attrTypes: seq<TypeRef>)
    ensures HandlerWrites([a, b], attrTypes) == AssemblyWrites(a, attrTypes) + AssemblyWrites(b, attrTypes)
  {
    assert [a, b][..1] == [a];
    assert [a][..0] == [];
    assert HandlerWrites([a], attrTypes) == [] + AssemblyWrites(a, attrTypes);
    assert [] + AssemblyWrites(a, attrTypes) == AssemblyWrites(a, attrTypes);
    assert HandlerWrites([a, b], attrTypes) == HandlerWrites([a], attrTypes) + AssemblyWrites(b, attrTypes);
  }

  /** The registrations of one assembly that carries one `ExportRenderer`. */
  lemma SingleRendererWrites(a: Assembly, view: TypeRef, renderer: TypeRef)
    requires a.handlerAttributes == map[ExportRenderer := [HandlerAttribute(view, Some(renderer), true)]]
    ensures AssemblyWrites(a, [ExportRenderer]) == [(view, Some(renderer))]
  {
    assert [ExportRenderer][..0] == [];
    var attributes := [HandlerAttribute(view, Some(renderer), true)];
    assert attributes[..0] == [];
    assert AttributeWrites(attributes) == [] + [(view, Some(renderer))];
    assert GetCustomAttributes(a, ExportRenderer) == attributes;
    assert AssemblyWrites(a, [ExportRenderer]) == [] + AttributeWrites(attributes);
  }

  /** Two writes to the same key leave the second value. */
  lemma TwoWritesSameKey<K, V>(k: K, first: V, second: V)
    ensures Apply(map[], [(k, first), (k, second)]) == map[k := second]
  {
    var writes := [(k, first), (k, second)];
    assert writes[..1] == [(k, first)];
    assert [(k, first)][..0] == [];
    assert Apply(map[], [(k, first)]) == map[][k := first];
    assert Apply(map[], writes) == map[][k := first][k := second];
  }

  /** `X` is scanned after `P`, so its registration for `ViewA` wins, and
      resolving `ViewA` afterwards gives `X`'s renderer. */
  lemma ScenarioHandlers(ts: TypeSystem)
    requires ts.Valid()
    ensures Apply(map[], HandlerWrites([P, X], [ExportRenderer])) == map[ViewA := Some(RendererX)]
    ensures Handlers.Resolve(map[ViewA := Some(RendererX)], ts, ViewA).handler == Some(RendererX)
  {
    TwoAssemblyWrites(P, X, [ExportRenderer]);
    SingleRendererWrites(P, ViewA, RendererP);
    SingleRendererWrites(X, ViewA, RendererX);
    assert [(ViewA, Some(RendererP))] + [(ViewA, Some(RendererX))]
           == [(ViewA, Some(RendererP)), (ViewA, Some(RendererX))];
    TwoWritesSameKey(ViewA, Some(RendererP), Some(RendererX));
    Handlers.RegisterOverrides(map[], ts, ViewA, Some(RendererX));
  }

  /** `X` has no resolution group name, so its effect key is `"X.Glow"`. */
  lemma ScenarioEffects()
    ensures Apply(map[], EffectWrites([P, X])) == map["X.Glow" := Some(GlowEffect)]
  {
    assert X.effects[..0] == [];
    assert "X" + "." + "Glow" == "X.Glow";
    assert EffectWritesOf("X", X.effects) == [("X.Glow", Some(GlowEffect))];
    assert [P, X][..1] == [P];
    assert EffectWrites([P]) == [];
    assert EffectWrites([P, X]) == [("X.Glow", Some(GlowEffect))];
  }
}

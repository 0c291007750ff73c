/** Surface identities and their canonical order. */
module SurfaceRefs {
  import opened Ordering
  import opened TextOrder

  datatype Kind = Flow | Mcp | Okf | Skill | Tool | Ui

  datatype SurfaceRef = SurfaceRef(kind: Kind, id: string)

  function Rank(k: Kind): nat {
    match k
    case Flow => 0
    case Mcp => 1
    case Okf => 2
    case Skill => 3
    case Tool => 4
    case Ui => 5
  }

  /** By kind, then by identifier. */
  predicate RefLess(a: SurfaceRef, b: SurfaceRef) {
    Rank(a.kind) < Rank(b.kind) || (a.kind == b.kind && TextLess(a.id, b.id))
  }

  /** The kinds in their order. */
  const KINDS := [Flow, Mcp, Okf, Skill, Tool, Ui]

  lemma RefLessByKind(a: SurfaceRef, b: SurfaceRef, i: nat, j: nat)
    requires i < |KINDS| && j < |KINDS| && KINDS[i] == a.kind && KINDS[j] == b.kind
    ensures RefLess(a, b) <==> i < j || (i == j && TextLess(a.id, b.id))
  {}

  lemma RefOrder()
    ensures StrictTotal(RefLess)
  {
    forall a: SurfaceRef
      ensures !RefLess(a, a)
    {
      TextIrreflexive(a.id);
    }
    forall a, b, c | RefLess(a, b) && RefLess(b, c)
      ensures RefLess(a, c)
    {
      if a.kind == b.kind == c.kind {
        TextTransitive(a.id, b.id, c.id);
      }
    }
    forall a: SurfaceRef, b: SurfaceRef
      ensures RefLess(a, b) || a == b || RefLess(b, a)
    {
      TextTotal(a.id, b.id);
    }
  }
}

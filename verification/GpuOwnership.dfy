/** Exclusive ownership of GPUs: which model holds which card. */
module GpuOwnership {
  type Gpu = int
  type Model = string

  /** The requested cards that another model holds, in the order asked for. */
  function Conflicts(owner: map<Gpu, Model>, model: Model, gpus: seq<Gpu>): seq<Gpu> {
    if |gpus| == 0 then []
    else (if gpus[0] in owner && owner[gpus[0]] != model then [gpus[0]] else []) + Conflicts(owner, model, gpus[1..])
  }

  function Assign(owner: map<Gpu, Model>, model: Model, gpus: seq<Gpu>): map<Gpu, Model>
    decreases |gpus|
  {
    if |gpus| == 0 then owner else Assign(owner[gpus[0] := model], model, gpus[1..])
  }

  function Without(owner: map<Gpu, Model>, model: Model): map<Gpu, Model> {
    map g | g in owner && owner[g] != model :: owner[g]
  }

  lemma {:induction false} ConflictsExact(owner: map<Gpu, Model>, model: Model, gpus: seq<Gpu>, g: Gpu)
    ensures g in Conflicts(owner, model, gpus) <==> g in gpus && g in owner && owner[g] != model
  {
    if |gpus| > 0 {
      ConflictsExact(owner, model, gpus[1..], g);
      assert gpus == [gpus[0]] + gpus[1..];
    }
  }

  lemma {:induction false} AssignExact(owner: map<Gpu, Model>, model: Model, gpus: seq<Gpu>, g: Gpu)
    ensures g in Assign(owner, model, gpus) <==> g in gpus || g in owner
    ensures g in Assign(owner, model, gpus) ==> Assign(owner, model, gpus)[g] == if g in gpus then model else owner[g]
    decreases |gpus|
  {
    if |gpus| > 0 {
      AssignExact(owner[gpus[0] := model], model, gpus[1..], g);
      assert gpus == [gpus[0]] + gpus[1..];
    }
  }

  class GpuOwnership {
    var owner: map<Gpu, Model>
    var labels: map<Model, string>

    constructor ()
      ensures owner == map[] && labels == map[]
    {
      owner, labels := map[], map[];
    }

    /** A claim is refused whole, with the occupied cards, or granted whole; an empty label is not kept. */
    method Claim(model: Model, gpus: seq<Gpu>, name: string) returns (conflicts: seq<Gpu>)
      modifies this
      ensures conflicts == Conflicts(old(owner), model, gpus)
      ensures conflicts != [] ==> owner == old(owner) && labels == old(labels)
      ensures conflicts == [] ==> owner == Assign(old(owner), model, gpus)
      ensures conflicts == [] ==> labels == if name != "" then old(labels)[model := name] else old(labels)
    {
      conflicts := Conflicts(owner, model, gpus);
      if conflicts != [] {
        return;
      }
      var i := 0;
      while i < |gpus|
        invariant 0 <= i <= |gpus|
        invariant Assign(owner, model, gpus[i..]) == Assign(old(owner), model, gpus)
        invariant labels == old(labels)
      {
        assert gpus[i..][1..] == gpus[i + 1..];
        owner := owner[gpus[i] := model];
        i := i + 1;
      }
      if name != "" {
        labels := labels[model := name];
      }
    }

    method Release(model: Model)
      modifies this
      ensures owner == Without(old(owner), model) && labels == old(labels) - {model}
    {
      owner := map g | g in owner && owner[g] != model :: owner[g];
      labels := labels - {model};
    }
  }
}

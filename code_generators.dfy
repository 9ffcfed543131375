/** The registry of code generators and its lookup by name (CodeGenerators.swift).

    A generator is its name plus a body; the body only drives the program builder, so it is
    kept as an uninterpreted type parameter. The eight group arrays are defined in other
    files and enter here as parameters. */
module CodeGenerators {

  datatype CodeGenerator<G> = CodeGenerator(name: string, body: G)

  /** What `get` does: hand back a generator, or stop the process with a fatal error. */
  datatype Lookup<G> = Found(generator: CodeGenerator<G>) | Fatal(message: string)

  /** The registry: the value, basic, object and Wasm groups, each made of two halves,
      concatenated in that order. */
  function AllCodeGenerators<G>(
    value1: seq<CodeGenerator<G>>, value2: seq<CodeGenerator<G>>,
    basic1: seq<CodeGenerator<G>>, basic2: seq<CodeGenerator<G>>,
    object1: seq<CodeGenerator<G>>, object2: seq<CodeGenerator<G>>,
    wasm1: seq<CodeGenerator<G>>, wasm2: seq<CodeGenerator<G>>): (r: seq<CodeGenerator<G>>)
    ensures |r| == |value1| + |value2| + |basic1| + |basic2| + |object1| + |object2| + |wasm1| + |wasm2|
    ensures r[..|value1| + |value2|] == value1 + value2
    ensures r[|value1| + |value2|..|value1| + |value2| + |basic1| + |basic2|] == basic1 + basic2
    ensures r[|value1| + |value2| + |basic1| + |basic2|..|r| - |wasm1| - |wasm2|] == object1 + object2
    ensures r[|r| - |wasm1| - |wasm2|..] == wasm1 + wasm2
  {
    var values := value1 + value2;
    var basics := basic1 + basic2;
    var objects := object1 + object2;
    var wasms := wasm1 + wasm2;
    var all := values + basics + objects + wasms;
    assert all[..|values|] == values;
    assert all[|values|..|values| + |basics|] == basics;
    assert all[|values| + |basics|..|values| + |basics| + |objects|] == objects;
    assert all[|values| + |basics| + |objects|..] == wasms;
    all
  }

  /** `Array<CodeGenerator>.get(_:)`: the first generator in list order with the given name;
      fatal when there is none. */
  function Get<G>(gs: seq<CodeGenerator<G>>, name: string): (r: Lookup<G>)
    ensures r.Found? <==> exists i :: 0 <= i < |gs| && gs[i].name == name
    ensures r.Found? ==> r.generator.name == name && r.generator in gs
    ensures r.Fatal? ==> r.message == "Unknown code generator " + name
  {
    if |gs| == 0 then Fatal("Unknown code generator " + name)
    else if gs[0].name == name then Found(gs[0])
    else
      assert forall i :: 1 <= i < |gs| ==> gs[i] == gs[1..][i - 1];
      Get(gs[1..], name)
  }

  /** The first index carrying a given name: the reference for `Get`. */
  ghost predicate IsFirstWithName<G>(gs: seq<CodeGenerator<G>>, name: string, i: int) {
    0 <= i < |gs| && gs[i].name == name && forall j :: 0 <= j < i ==> gs[j].name != name
  }

  /** Earlier duplicates shadow later ones: `Get` returns the generator at the first index
      carrying the name. */
  lemma {:induction false} GetReturnsFirstMatch<G>(gs: seq<CodeGenerator<G>>, name: string, i: int)
    requires IsFirstWithName(gs, name, i)
    ensures Get(gs, name) == Found(gs[i])
  {
    if i > 0 {
      assert gs[0].name != name;
      assert IsFirstWithName(gs[1..], name, i - 1) by {
        forall j | 0 <= j < i - 1 ensures gs[1..][j].name != name {
          assert gs[1..][j] == gs[j + 1];
        }
      }
      GetReturnsFirstMatch(gs[1..], name, i - 1);
    }
  }

  /** Looking up in a concatenation searches the left part first and the right part only
      when the left part has no generator of that name. */
  lemma {:induction false} GetAppend<G>(a: seq<CodeGenerator<G>>, b: seq<CodeGenerator<G>>, name: string)
    ensures Get(a + b, name) == if Get(a, name).Found? then Get(a, name) else Get(b, name)
  {
    if |a| == 0 {
      assert a + b == b;
    } else {
      assert (a + b)[0] == a[0];
      if a[0].name != name {
        assert (a + b)[1..] == a[1..] + b;
        GetAppend(a[1..], b, name);
      }
    }
  }

  /** A name defined in the value group is always served from the value group, whatever
      the later groups contain; in particular no later group can shadow it. */
  lemma ValueGroupTakesPrecedence<G>(
    value1: seq<CodeGenerator<G>>, value2: seq<CodeGenerator<G>>,
    basic1: seq<CodeGenerator<G>>, basic2: seq<CodeGenerator<G>>,
    object1: seq<CodeGenerator<G>>, object2: seq<CodeGenerator<G>>,
    wasm1: seq<CodeGenerator<G>>, wasm2: seq<CodeGenerator<G>>, name: string)
    requires Get(value1 + value2, name).Found?
    ensures Get(AllCodeGenerators(value1, value2, basic1, basic2, object1, object2, wasm1, wasm2), name)
         == Get(value1 + value2, name)
  {
    var values := value1 + value2;
    var later := (basic1 + basic2) + (object1 + object2) + (wasm1 + wasm2);
    assert AllCodeGenerators(value1, value2, basic1, basic2, object1, object2, wasm1, wasm2) == values + later;
    GetAppend(values, later, name);
  }

  /** A name missing from the value, basic and object groups is looked up in the Wasm group alone. */
  lemma WasmGroupLookup<G>(
    value1: seq<CodeGenerator<G>>, value2: seq<CodeGenerator<G>>,
    basic1: seq<CodeGenerator<G>>, basic2: seq<CodeGenerator<G>>,
    object1: seq<CodeGenerator<G>>, object2: seq<CodeGenerator<G>>,
    wasm1: seq<CodeGenerator<G>>, wasm2: seq<CodeGenerator<G>>, name: string)
    requires Get(value1 + value2 + (basic1 + basic2) + (object1 + object2), name).Fatal?
    ensures Get(AllCodeGenerators(value1, value2, basic1, basic2, object1, object2, wasm1, wasm2), name)
         == Get(wasm1 + wasm2, name)
  {
    var front := value1 + value2 + (basic1 + basic2) + (object1 + object2);
    assert AllCodeGenerators(value1, value2, basic1, basic2, object1, object2, wasm1, wasm2) == front + (wasm1 + wasm2);
    GetAppend(front, wasm1 + wasm2, name);
  }
}

/**
 * BlockEncodingManager: the registry from encoding names to block encodings.  A fresh
 * manager registers the fifteen built-in encodings; `addBlockEncoding` is a put-if-absent
 * that refuses a name already present.
 */
module BlockEncodingManagers {
  import opened Wrappers
  import BlockEncodings
  import Blocks

  /**
   * A block encoding: the name it reports and an identity standing for the implementing
   * object (two encodings with one name are still different objects).
   */
  datatype BlockEncoding = BlockEncoding(name: string, implementation: nat)

  datatype RegistryError = IllegalArgument(message: string)

  type Registry = map<string, BlockEncoding>

  /** Every entry is filed under the name its encoding reports. */
  predicate WellKeyed(registry: Registry)
  {
    forall n :: n in registry ==> registry[n].name == n
  }

  /** getBlockEncoding on a registry. */
  function Lookup(registry: Registry, name: string): (r: Result<BlockEncoding, RegistryError>)
    ensures r.Ok? <==> name in registry
    ensures r.Ok? && WellKeyed(registry) ==> r.value.name == name
    ensures r.Err? ==> r.error == IllegalArgument("Unknown block encoding: " + name)
  {
    if name in registry then Ok(registry[name])
    else Err(IllegalArgument("Unknown block encoding: " + name))
  }

  /** addBlockEncoding on a registry: putIfAbsent under the encoding's name, then fail if it was present. */
  function Add(registry: Registry, e: BlockEncoding): (r: Result<Registry, RegistryError>)
    ensures r.Ok? <==> e.name !in registry
    ensures r.Ok? ==> r.value.Keys == registry.Keys + {e.name}
    ensures r.Err? ==> r.error == IllegalArgument("Encoding already registered: " + e.name)
  {
    if e.name in registry then Err(IllegalArgument("Encoding already registered: " + e.name))
    else Ok(registry[e.name := e])
  }

  /** After a successful add the new name finds the added encoding and every other lookup is unchanged. */
  lemma AddThenLookup(registry: Registry, e: BlockEncoding, name: string)
    requires Add(registry, e).Ok?
    ensures Lookup(Add(registry, e).value, name) == if name == e.name then Ok(e) else Lookup(registry, name)
  {
  }

  /** Names stay registered, and to the same encoding, whether or not an add succeeds. */
  lemma AddKeepsEntries(registry: Registry, e: BlockEncoding, name: string)
    requires name in registry
    ensures Add(registry, e).Ok? ==> Add(registry, e).value[name] == registry[name]
    ensures Lookup(registry, name).Ok?
  {
  }

  /** A failed add leaves the existing entry for that name in place. */
  lemma AddFailureKeepsExisting(registry: Registry, e: BlockEncoding)
    requires e.name in registry
    ensures Add(registry, e).Err?
    ensures Lookup(registry, e.name) == Ok(registry[e.name])
  {
  }

  /** Adding keeps every entry filed under its own name. */
  lemma AddWellKeyed(registry: Registry, e: BlockEncoding)
    requires WellKeyed(registry) && Add(registry, e).Ok?
    ensures WellKeyed(Add(registry, e).value)
  {
  }

  // ---------------------------------------------------------------------------
  // The built-in encodings.

  /** The k-th built-in encoding, in the constructor's registration order. */
  function BuiltIn(k: nat): (e: BlockEncoding)
    requires k < |BlockEncodings.BuiltIns|
    ensures e.name == BlockEncodings.BuiltIns[k]
  {
    BlockEncoding(BlockEncodings.BuiltIns[k], k)
  }

  /** The registry after the first i registrations of the constructor. */
  function BuiltInsUpTo(i: nat): (m: Registry)
    requires i <= |BlockEncodings.BuiltIns|
    ensures forall k :: 0 <= k < i ==> BlockEncodings.BuiltIns[k] in m
  {
    if i == 0 then map[] else BuiltInsUpTo(i - 1)[BlockEncodings.BuiltIns[i - 1] := BuiltIn(i - 1)]
  }

  /** After i registrations the names present are the first i built-in names. */
  lemma {:induction false} BuiltInsUpToKeys(i: nat)
    requires i <= |BlockEncodings.BuiltIns|
    ensures BuiltInsUpTo(i).Keys == set k | 0 <= k < i :: BlockEncodings.BuiltIns[k]
  {
    if i > 0 {
      BuiltInsUpToKeys(i - 1);
      var before := set k | 0 <= k < i - 1 :: BlockEncodings.BuiltIns[k];
      var after := set k | 0 <= k < i :: BlockEncodings.BuiltIns[k];
      assert after == before + {BlockEncodings.BuiltIns[i - 1]};
    }
  }

  /** The registry of a freshly constructed manager. */
  function FreshRegistry(): Registry
  {
    BuiltInsUpTo(|BlockEncodings.BuiltIns|)
  }

  lemma BuiltInNamesDistinct(i: nat, j: nat)
    requires i < j < |BlockEncodings.BuiltIns|
    ensures BlockEncodings.BuiltIns[i] != BlockEncodings.BuiltIns[j]
  {
  }

  /** Each registration of the constructor succeeds: the i-th name is not yet present. */
  lemma BuiltInNotYetRegistered(i: nat)
    requires i < |BlockEncodings.BuiltIns|
    ensures BlockEncodings.BuiltIns[i] !in BuiltInsUpTo(i)
  {
    BuiltInsUpToKeys(i);
    forall k | 0 <= k < i
      ensures BlockEncodings.BuiltIns[k] != BlockEncodings.BuiltIns[i]
    {
      BuiltInNamesDistinct(k, i);
    }
  }

  /** The constructor's i-th registration succeeds and gives the registry after i + 1. */
  lemma RegisterBuiltIn(i: nat)
    requires i < |BlockEncodings.BuiltIns|
    ensures Add(BuiltInsUpTo(i), BuiltIn(i)) == Ok(BuiltInsUpTo(i + 1))
  {
    BuiltInNotYetRegistered(i);
  }

  /** After i registrations there are i entries. */
  lemma {:induction false} BuiltInsUpToSize(i: nat)
    requires i <= |BlockEncodings.BuiltIns|
    ensures |BuiltInsUpTo(i)| == i
  {
    if i > 0 {
      BuiltInsUpToSize(i - 1);
      BuiltInNotYetRegistered(i - 1);
    }
  }

  /** After i registrations each entry is filed under its own name. */
  lemma {:induction false} BuiltInsUpToWellKeyed(i: nat)
    requires i <= |BlockEncodings.BuiltIns|
    ensures WellKeyed(BuiltInsUpTo(i))
  {
    if i > 0 {
      BuiltInsUpToWellKeyed(i - 1);
    }
  }

  /** After i registrations the k-th built-in name finds the k-th built-in encoding. */
  lemma {:induction false} BuiltInsUpToEntries(i: nat)
    requires i <= |BlockEncodings.BuiltIns|
    ensures forall k :: 0 <= k < i ==> BuiltInsUpTo(i)[BlockEncodings.BuiltIns[k]] == BuiltIn(k)
  {
    if i > 0 {
      BuiltInsUpToEntries(i - 1);
      var previous := BuiltInsUpTo(i - 1);
      forall k | 0 <= k < i - 1
        ensures BuiltInsUpTo(i)[BlockEncodings.BuiltIns[k]] == BuiltIn(k)
      {
        BuiltInNamesDistinct(k, i - 1);
        assert BuiltInsUpTo(i)[BlockEncodings.BuiltIns[k]] == previous[BlockEncodings.BuiltIns[k]];
      }
    }
  }

  /** After i registrations there are i entries, each filed under its own name with the k-th built-in. */
  lemma BuiltInsUpToFacts(i: nat)
    requires i <= |BlockEncodings.BuiltIns|
    ensures |BuiltInsUpTo(i)| == i
    ensures WellKeyed(BuiltInsUpTo(i))
    ensures forall k :: 0 <= k < i ==> BuiltInsUpTo(i)[BlockEncodings.BuiltIns[k]] == BuiltIn(k)
  {
    BuiltInsUpToSize(i);
    BuiltInsUpToWellKeyed(i);
    BuiltInsUpToEntries(i);
  }

  /** The names registered in a fresh manager are exactly the built-in names. */
  lemma FreshRegistryNames()
    ensures FreshRegistry().Keys == set n | n in BlockEncodings.BuiltIns
  {
    var m := FreshRegistry();
    BuiltInsUpToKeys(|BlockEncodings.BuiltIns|);
    forall n | n in BlockEncodings.BuiltIns
      ensures n in m.Keys
    {
      var k :| 0 <= k < |BlockEncodings.BuiltIns| && BlockEncodings.BuiltIns[k] == n;
    }
  }

  /** A fresh manager holds exactly fifteen encodings. */
  lemma FreshRegistrySize()
    ensures |FreshRegistry()| == 15
  {
    BuiltInsUpToFacts(|BlockEncodings.BuiltIns|);
  }

  /** A fresh manager files every encoding under its own name. */
  lemma FreshRegistryWellKeyed()
    ensures WellKeyed(FreshRegistry())
  {
    BuiltInsUpToFacts(|BlockEncodings.BuiltIns|);
  }

  /** In a fresh manager each built-in name finds its built-in encoding, filed under its own name. */
  lemma FreshRegistryLookup()
    ensures WellKeyed(FreshRegistry())
    ensures forall k :: 0 <= k < |BlockEncodings.BuiltIns| ==> Lookup(FreshRegistry(), BlockEncodings.BuiltIns[k]) == Ok(BuiltIn(k))
  {
    BuiltInsUpToFacts(|BlockEncodings.BuiltIns|);
  }

  /** The encoding name every well-formed block of the model reports is registered in a fresh manager. */
  lemma EncodingNameRegistered(b: Blocks.Block)
    requires Blocks.Valid(b)
    ensures Lookup(FreshRegistry(), Blocks.EncodingName(b)).Ok?
    ensures Lookup(FreshRegistry(), Blocks.EncodingName(b)).value.name == Blocks.EncodingName(b)
  {
    FreshRegistryNames();
    FreshRegistryLookup();
  }

  // ---------------------------------------------------------------------------
  // The manager object.

  class BlockEncodingManager {
    var encodings: Registry

    predicate Valid()
      reads this
    {
      WellKeyed(encodings)
    }

    /** Registers the built-in encodings one by one, in the source's order. */
    constructor()
      ensures encodings == FreshRegistry()
      ensures Valid()
    {
      encodings := map[];
      new;
      var i := 0;
      while i < |BlockEncodings.BuiltIns|
        invariant 0 <= i <= |BlockEncodings.BuiltIns|
        invariant encodings == BuiltInsUpTo(i)
        modifies this
      {
        RegisterBuiltIn(i);
        var r := AddBlockEncoding(BuiltIn(i));
        i := i + 1;
      }
      FreshRegistryWellKeyed();
    }

    /** getBlockEncoding: the encoding registered under the name, or IllegalArgument. */
    method GetBlockEncoding(name: string) returns (r: Result<BlockEncoding, RegistryError>)
      ensures r == Lookup(encodings, name)
    {
      if name in encodings {
        r := Ok(encodings[name]);
      } else {
        r := Err(IllegalArgument("Unknown block encoding: " + name));
      }
    }

    /** addBlockEncoding: a put-if-absent that fails, changing nothing, when the name is taken. */
    method AddBlockEncoding(e: BlockEncoding) returns (r: Result<(), RegistryError>)
      modifies this
      ensures r.Ok? <==> Add(old(encodings), e).Ok?
      ensures r.Ok? ==> encodings == Add(old(encodings), e).value
      ensures r.Err? ==> encodings == old(encodings) && r.error == Add(old(encodings), e).error
      ensures old(Valid()) ==> Valid()
    {
      if e.name in encodings {
        r := Err(IllegalArgument("Encoding already registered: " + e.name));
      } else {
        encodings := encodings[e.name := e];
        r := Ok(());
      }
    }
  }
}

/**
 * Bounded reading of unverified packages (crates/bicdb-app-runtime/src/package_input.rs).
 * The inner reader may return fewer bytes than asked for, and may fail.
 */
module PackageInput {
  import opened Prelude

  const U64_LIMIT := 0x1_0000_0000_0000_0000
  const ENCODED_OVERHEAD_BYTES := 64 * 1024

  /** The ceiling on encoded bytes for a decoded size, if it can be represented. */
  function EncodedByteLimit(decodedLimit: nat): (limit: Option<nat>)
    ensures limit.Some? <==> decodedLimit > 0 && 16 * decodedLimit + 65536 < 0x1_0000_0000_0000_0000
    ensures limit.Some? ==> limit.value == 16 * decodedLimit + 65536 > decodedLimit
  {
    if decodedLimit == 0 || decodedLimit >= U64_LIMIT || decodedLimit * 16 >= U64_LIMIT
       || decodedLimit * 16 + ENCODED_OVERHEAD_BYTES >= U64_LIMIT
    then None
    else Some(decodedLimit * 16 + ENCODED_OVERHEAD_BYTES)
  }

  // ---------------------------------------------------------------- one read

  /** The reader's own fields and how much of the input its inner reader has given out. */
  datatype Reader = Reader(consumed: nat, remaining: nat, exceeded: bool)

  /** `size` bytes are asked for; the inner reader fails, or gives at most `burst` + 1 bytes. */
  datatype Call = Call(size: nat, burst: nat, fails: bool)

  datatype Answer = Bytes(count: nat) | TooLong | Failed

  function Min(a: nat, b: nat): nat {
    if a < b then a else b
  }

  /** What the inner reader gives when `wanted` bytes are asked for and `available` are left. */
  function Granted(wanted: nat, available: nat, burst: nat): nat {
    Min(Min(wanted, available), burst + 1)
  }

  function Read(reader: Reader, length: nat, call: Call): (Reader, Answer)
    requires reader.consumed <= length
  {
    var available := length - reader.consumed;
    if call.size == 0 then (reader, Bytes(0))
    else if call.fails then (reader, Failed)
    else if reader.remaining == 0 then
      var extra := Granted(1, available, call.burst);
      if extra == 0 then (reader, Bytes(0))
      else (reader.(consumed := reader.consumed + 1, exceeded := true), TooLong)
    else
      var count := Granted(Min(reader.remaining, call.size), available, call.burst);
      (reader.(consumed := reader.consumed + count, remaining := reader.remaining - count), Bytes(count))
  }

  class LimitedPackageReader {
    const input: seq<char>
    var consumed: nat
    var remaining: nat
    var exceeded: bool

    ghost predicate Valid()
      reads this
    {
      consumed <= |input|
    }

    function Fields(): Reader
      reads this
    {
      Reader(consumed, remaining, exceeded)
    }

    constructor (input: seq<char>, limit: nat)
      ensures Valid() && this.input == input && Fields() == Reader(0, limit, false)
    {
      this.input := input;
      consumed, remaining, exceeded := 0, limit, false;
    }

    method ReadSome(call: Call) returns (answer: Answer, data: seq<char>)
      requires Valid()
      modifies this
      ensures Valid() && (Fields(), answer) == Read(old(Fields()), |input|, call)
      ensures answer.Bytes? ==>
        |data| == answer.count && old(consumed) + |data| <= |input|
        && data == input[old(consumed)..old(consumed) + |data|]
    {
      data := [];
      if call.size == 0 {
        return Bytes(0), [];
      }
      if call.fails {
        return Failed, [];
      }
      if remaining == 0 {
        if consumed == |input| {
          return Bytes(0), [];
        }
        consumed := consumed + 1;
        exceeded := true;
        return TooLong, [];
      }
      var wanted := if remaining < call.size then remaining else call.size;
      var count := Granted(wanted, |input| - consumed, call.burst);
      data := input[consumed..consumed + count];
      consumed := consumed + count;
      remaining := remaining - count;
      return Bytes(count), data;
    }
  }

  // ---------------------------------------------------------------- every sequence of reads

  /** The reader after `calls`, and the number of bytes they delivered. */
  function After(length: nat, limit: nat, calls: seq<Call>): (state: (Reader, nat))
    ensures state.0.consumed <= length
  {
    if calls == [] then (Reader(0, limit, false), 0)
    else
      var (reader, delivered) := After(length, limit, calls[..|calls| - 1]);
      var (reader', answer) := Read(reader, length, calls[|calls| - 1]);
      (reader', delivered + if answer.Bytes? then answer.count else 0)
  }

  /** The answer to one more call. */
  function NextAnswer(length: nat, limit: nat, calls: seq<Call>, call: Call): Answer {
    Read(After(length, limit, calls).0, length, call).1
  }

  lemma {:induction false} Accounted(length: nat, limit: nat, calls: seq<Call>)
    ensures var (reader, delivered) := After(length, limit, calls);
            && delivered + reader.remaining == limit && delivered <= length
            && (!reader.exceeded ==> reader.consumed == delivered)
            && (reader.exceeded ==> delivered == limit < length)
  {
    if calls != [] {
      Accounted(length, limit, calls[..|calls| - 1]);
    }
  }

  /**
   * Whatever the short reads and failures: no more than the limit is delivered; while
   * nothing has been found to exceed it, an end-of-file answer means that the whole
   * input was delivered; and the limit is reported exceeded only when the input is longer.
   */
  lemma LimitIsNotEndOfFile(length: nat, limit: nat, calls: seq<Call>, call: Call)
    requires call.size > 0
    ensures var (reader, delivered) := After(length, limit, calls);
            var answer := NextAnswer(length, limit, calls, call);
            && delivered <= limit && delivered <= length
            && (!reader.exceeded && answer == Bytes(0) ==> delivered == length <= limit)
            && (answer.TooLong? ==> length > limit)
            && (!reader.exceeded && !call.fails && delivered == limit ==>
                  (answer.TooLong? <==> length > limit))
  {
    Accounted(length, limit, calls);
  }

  datatype Failure = LimitExceeded | ReaderFailed

  /**
   * Reading to the end of an input, as decoding a package does. The result is the whole
   * input, or one of two failures that are told apart; a truncated prefix is never returned.
   */
  method ReadToEnd(input: seq<char>, limit: nat, calls: nat -> Call) returns (data: Result<seq<char>, Failure>)
    requires forall turn :: calls(turn).size > 0
    ensures data.Ok? ==> data.value == input && |input| <= limit
    ensures data == Err(LimitExceeded) ==> |input| > limit
    ensures data == Err(ReaderFailed) ==> exists turn :: calls(turn).fails
    ensures (forall turn :: !calls(turn).fails) ==> (data.Ok? <==> |input| <= limit)
  {
    var reader := new LimitedPackageReader(input, limit);
    var collected: seq<char> := [];
    var turn := 0;
    while true
      invariant reader.Valid() && reader.input == input && !reader.exceeded
      invariant collected == input[..reader.consumed] && |collected| + reader.remaining == limit
      decreases |input| - |collected|
    {
      var answer, more := reader.ReadSome(calls(turn));
      match answer {
        case TooLong => return Err(LimitExceeded);
        case Failed => return Err(ReaderFailed);
        case Bytes(count) =>
          if count == 0 {
            assert input[..|input|] == input;
            return Ok(collected);
          }
      }
      collected := collected + more;
      turn := turn + 1;
    }
  }

  // ---------------------------------------------------------------- decoded size

  function Sum(sizes: seq<nat>): nat {
    if sizes == [] then 0 else Sum(sizes[..|sizes| - 1]) + sizes[|sizes| - 1]
  }

  lemma {:induction false} SumJoined(a: seq<nat>, b: seq<nat>)
    ensures Sum(a + b) == Sum(a) + Sum(b)
  {
    if b == [] {
      assert a + b == a;
    } else {
      assert (a + b)[..|a + b| - 1] == a + b[..|b| - 1];
      SumJoined(a, b[..|b| - 1]);
    }
  }

  lemma {:induction false} SumGrows(sizes: seq<nat>, i: nat)
    requires i <= |sizes|
    ensures Sum(sizes[..i]) <= Sum(sizes)
  {
    if i < |sizes| {
      assert sizes[..|sizes| - 1][..i] == sizes[..i];
      SumGrows(sizes[..|sizes| - 1], i);
    } else {
      assert sizes[..i] == sizes;
    }
  }

  class SizeCounter {
    var bytes: nat
    const limit: nat

    constructor (limit: nat)
      ensures bytes == 0 && this.limit == limit
    {
      bytes := 0;
      this.limit := limit;
    }

    method Add(more: nat) returns (ok: bool)
      modifies this
      ensures ok <==> old(bytes) + more <= limit
      ensures bytes == if ok then old(bytes) + more else old(bytes)
    {
      if bytes + more > limit {
        return false;
      }
      bytes := bytes + more;
      return true;
    }

    /** Counting stops early, and succeeds exactly when the total is within the limit. */
    method AddAll(sizes: seq<nat>) returns (ok: bool)
      requires bytes <= limit
      modifies this
      ensures ok <==> old(bytes) + Sum(sizes) <= limit
      ensures ok ==> bytes == old(bytes) + Sum(sizes)
    {
      for i := 0 to |sizes|
        invariant bytes == old(bytes) + Sum(sizes[..i]) <= limit
      {
        assert sizes[..i + 1][..i] == sizes[..i];
        SumGrows(sizes, i + 1);
        ok := Add(sizes[i]);
        if !ok {
          return;
        }
      }
      assert sizes[..|sizes|] == sizes;
      return true;
    }

    /** Module names are checked one by one as they are counted. */
    method AddNames(names: seq<string>) returns (ok: bool)
      requires bytes <= limit
      modifies this
      ensures ok <==>
        (forall i :: 0 <= i < |names| ==> ValidName(names[i])) && old(bytes) + Sum(Lengths(names)) <= limit
      ensures ok ==> bytes == old(bytes) + Sum(Lengths(names))
    {
      for i := 0 to |names|
        invariant bytes == old(bytes) + Sum(Lengths(names)[..i]) <= limit
        invariant forall k :: 0 <= k < i ==> ValidName(names[k])
      {
        if !ValidName(names[i]) {
          return false;
        }
        assert Lengths(names)[..i + 1][..i] == Lengths(names)[..i];
        SumGrows(Lengths(names), i + 1);
        ok := Add(|names[i]|);
        if !ok {
          return;
        }
      }
      assert Lengths(names)[..|names|] == Lengths(names);
      return true;
    }
  }

  const MAX_MODULES := 4096
  const MAX_ASSETS := 4096
  const MAX_COMPONENTS := 128
  const MAX_SCRIPTS := 256
  const MAX_NAME_BYTES := 1024

  predicate ValidName(name: string) {
    0 < |name| <= MAX_NAME_BYTES
  }

  function Lengths(names: seq<string>): seq<nat> {
    seq(|names|, i requires 0 <= i < |names| => |names[i]|)
  }

  datatype Module = Module(name: string, size: nat)

  datatype Asset = Asset(path: string, contentType: string, size: nat)

  datatype Script = Script(name: string, source: string)

  /** `metadata` is counted in the pieces in which the manifest and the components are written. */
  datatype Package = Package(modules: seq<Module>, assets: seq<Asset>, scripts: seq<Script>, components: nat,
                             dependencyLock: nat, sbom: nat, provenance: nat, metadata: seq<nat>)

  function ModuleNames(modules: seq<Module>): seq<string> {
    seq(|modules|, i requires 0 <= i < |modules| => modules[i].name)
  }

  function ModuleSizes(modules: seq<Module>): seq<nat> {
    seq(|modules|, i requires 0 <= i < |modules| => modules[i].size)
  }

  function AssetSizes(assets: seq<Asset>): seq<nat> {
    seq(|assets|, i requires 0 <= i < |assets| => assets[i].size)
  }

  /** The path and the content type of each asset. */
  function AssetNames(assets: seq<Asset>): seq<nat> {
    if assets == [] then []
    else [|assets[0].path|, |assets[0].contentType|] + AssetNames(assets[1..])
  }

  function ScriptSizes(scripts: seq<Script>): seq<nat> {
    seq(|scripts|, i requires 0 <= i < |scripts| => |scripts[i].name| + |scripts[i].source|)
  }

  function PayloadSizes(package: Package): seq<nat> {
    ModuleSizes(package.modules) + AssetSizes(package.assets) + ScriptSizes(package.scripts)
    + [package.dependencyLock, package.sbom, package.provenance]
  }

  function AllSizes(package: Package): seq<nat> {
    PayloadSizes(package) + Lengths(ModuleNames(package.modules)) + AssetNames(package.assets) + package.metadata
  }

  predicate WithinCounts(package: Package) {
    && |package.modules| <= MAX_MODULES && |package.assets| <= MAX_ASSETS
    && package.components <= MAX_COMPONENTS && |package.scripts| <= MAX_SCRIPTS
  }

  predicate IsAcceptable(package: Package, limit: nat) {
    && WithinCounts(package) && Sum(PayloadSizes(package)) > 0
    && (forall i :: 0 <= i < |package.modules| ==> ValidName(package.modules[i].name))
    && Sum(AllSizes(package)) <= limit
  }

  lemma AllSizesSum(package: Package)
    ensures Sum(AllSizes(package)) == Sum(PayloadSizes(package)) + Sum(Lengths(ModuleNames(package.modules)))
                                      + Sum(AssetNames(package.assets)) + Sum(package.metadata)
  {
    var payload, assets := PayloadSizes(package), AssetNames(package.assets);
    var names := Lengths(ModuleNames(package.modules));
    SumJoined(payload, names);
    SumJoined(payload + names, assets);
    SumJoined(payload + names + assets, package.metadata);
  }

  /** Refusing early gives the total of all parts exactly when the package is acceptable. */
  method CheckDecodedSize(package: Package, limit: nat) returns (total: Option<nat>)
    ensures total == if IsAcceptable(package, limit) then Some(Sum(AllSizes(package))) else None
  {
    AllSizesSum(package);
    assert forall i :: 0 <= i < |package.modules| ==>
      ModuleNames(package.modules)[i] == package.modules[i].name;
    if !WithinCounts(package) {
      return None;
    }
    var counter := new SizeCounter(limit);
    var ok := counter.AddAll(PayloadSizes(package));
    if !ok || counter.bytes == 0 {
      return None;
    }
    ok := counter.AddNames(ModuleNames(package.modules));
    if ok {
      ok := counter.AddAll(AssetNames(package.assets));
    }
    if ok {
      ok := counter.AddAll(package.metadata);
    }
    return if ok then Some(counter.bytes) else None;
  }

  // ---------------------------------------------------------------- what the total counts

  function Total(package: Package): nat {
    Sum(AllSizes(package))
  }

  lemma SumOfThree(a: nat, b: nat, c: nat)
    ensures Sum([a, b, c]) == a + b + c
  {
    var sizes := [a, b, c];
    assert sizes[..2] == [a, b] && [a, b][..1] == [a] && [a][..0] == [];
    assert Sum([a]) == a;
    assert Sum([a, b]) == a + b;
  }

  /** What the host accepts as a package. */
  lemma AcceptableIff(package: Package, limit: nat)
    ensures IsAcceptable(package, limit) <==>
      && |package.modules| <= 4096 && |package.assets| <= 4096 && package.components <= 128
      && |package.scripts| <= 256 && 0 < Sum(PayloadSizes(package)) && Total(package) <= limit
      && forall m :: m in package.modules ==> 1 <= |m.name| <= 1024
  {
    assert forall m :: m in package.modules ==> exists i :: 0 <= i < |package.modules| && package.modules[i] == m;
    assert forall i :: 0 <= i < |package.modules| ==> package.modules[i] in package.modules;
  }

  lemma PayloadSum(package: Package)
    ensures Sum(PayloadSizes(package)) ==
      Sum(ModuleSizes(package.modules)) + Sum(AssetSizes(package.assets)) + Sum(ScriptSizes(package.scripts))
      + (package.dependencyLock + package.sbom + package.provenance)
  {
    var modules, assets := ModuleSizes(package.modules), AssetSizes(package.assets);
    var scripts, records := ScriptSizes(package.scripts), [package.dependencyLock, package.sbom, package.provenance];
    SumJoined(modules, assets);
    SumJoined(modules + assets, scripts);
    SumJoined(modules + assets + scripts, records);
    SumOfThree(package.dependencyLock, package.sbom, package.provenance);
  }

  /** The total by kind of content. */
  lemma TotalSum(package: Package)
    ensures Total(package) ==
      Sum(ModuleSizes(package.modules)) + Sum(AssetSizes(package.assets)) + Sum(ScriptSizes(package.scripts))
      + (package.dependencyLock + package.sbom + package.provenance)
      + Sum(Lengths(ModuleNames(package.modules))) + Sum(AssetNames(package.assets)) + Sum(package.metadata)
  {
    AllSizesSum(package);
    PayloadSum(package);
  }

  lemma {:induction false} AssetNamesNext(assets: seq<Asset>, asset: Asset)
    ensures AssetNames(assets + [asset]) == AssetNames(assets) + [|asset.path|, |asset.contentType|]
  {
    if assets == [] {
      assert (assets + [asset])[1..] == [];
    } else {
      assert (assets + [asset])[1..] == assets[1..] + [asset];
      AssetNamesNext(assets[1..], asset);
    }
  }

  lemma SumNext(sizes: seq<nat>, size: nat)
    ensures Sum(sizes + [size]) == Sum(sizes) + size
  {
    assert (sizes + [size])[..|sizes|] == sizes;
  }

  lemma ModuleSums(modules: seq<Module>, m: Module)
    ensures Sum(ModuleSizes(modules + [m])) == Sum(ModuleSizes(modules)) + m.size
    ensures Sum(Lengths(ModuleNames(modules + [m]))) == Sum(Lengths(ModuleNames(modules))) + |m.name|
  {
    assert ModuleSizes(modules + [m]) == ModuleSizes(modules) + [m.size];
    SumNext(ModuleSizes(modules), m.size);
    assert Lengths(ModuleNames(modules + [m])) == Lengths(ModuleNames(modules)) + [|m.name|];
    SumNext(Lengths(ModuleNames(modules)), |m.name|);
  }

  lemma AssetSums(assets: seq<Asset>, asset: Asset)
    ensures Sum(AssetSizes(assets + [asset])) == Sum(AssetSizes(assets)) + asset.size
    ensures Sum(AssetNames(assets + [asset])) == Sum(AssetNames(assets)) + |asset.path| + |asset.contentType|
  {
    assert AssetSizes(assets + [asset]) == AssetSizes(assets) + [asset.size];
    SumNext(AssetSizes(assets), asset.size);
    AssetNamesNext(assets, asset);
    var names := AssetNames(assets);
    assert names + [|asset.path|, |asset.contentType|] == names + [|asset.path|] + [|asset.contentType|];
    SumNext(names, |asset.path|);
    SumNext(names + [|asset.path|], |asset.contentType|);
  }

  lemma ScriptSums(scripts: seq<Script>, script: Script)
    ensures Sum(ScriptSizes(scripts + [script])) == Sum(ScriptSizes(scripts)) + |script.name| + |script.source|
  {
    assert ScriptSizes(scripts + [script]) == ScriptSizes(scripts) + [|script.name| + |script.source|];
    SumNext(ScriptSizes(scripts), |script.name| + |script.source|);
  }

  /** A module counts with its bytes and its name. */
  lemma ModuleCounts(package: Package, m: Module)
    ensures Total(package.(modules := package.modules + [m])) == Total(package) + m.size + |m.name|
  {
    TotalSum(package);
    TotalSum(package.(modules := package.modules + [m]));
    ModuleSums(package.modules, m);
  }

  /** An asset counts with its bytes, its path and its content type. */
  lemma AssetCounts(package: Package, asset: Asset)
    ensures Total(package.(assets := package.assets + [asset])) ==
      Total(package) + asset.size + |asset.path| + |asset.contentType|
  {
    TotalSum(package);
    TotalSum(package.(assets := package.assets + [asset]));
    AssetSums(package.assets, asset);
  }

  /** A script counts with its name and its source. */
  lemma ScriptCounts(package: Package, script: Script)
    ensures Total(package.(scripts := package.scripts + [script])) ==
      Total(package) + |script.name| + |script.source|
  {
    TotalSum(package);
    TotalSum(package.(scripts := package.scripts + [script]));
    ScriptSums(package.scripts, script);
  }

  /** A package of nothing else counts with its lock, bill of materials, provenance and metadata. */
  lemma BareTotal(package: Package)
    requires package.modules == [] && package.assets == [] && package.scripts == []
    ensures Total(package) == package.dependencyLock + package.sbom + package.provenance + Sum(package.metadata)
  {
    TotalSum(package);
  }
}

/**
 * The GPU description of the development seed: each GPU line found on the
 * machine is reduced to one of the GPU types the schema knows, and the
 * recognised ones are counted per type as `"<type>x<count>"`.
 */
module DevSeedGpus {
  import opened Text

  /**
   * format_gpu_name: the first of `L40S` (stored as `RTX4090`), `A100` and
   * `H100` the line contains, or `NONE`.
   */
  function FormatGpuName(gpuName: string): string
  {
    if Contains(gpuName, "L40S") then "RTX4090"
    else if Contains(gpuName, "A100") then "A100"
    else if Contains(gpuName, "H100") then "H100"
    else "NONE"
  }

  /** The types a line can be reduced to, besides `NONE`. */
  predicate IsGpuType(t: string) {
    t == "RTX4090" || t == "A100" || t == "H100"
  }

  /** The checks are ordered: a line naming several types gets the first in the order L40S, A100, H100. */
  lemma FormatGpuNameMeaning(gpuName: string)
    ensures FormatGpuName(gpuName) == "RTX4090" <==> Contains(gpuName, "L40S")
    ensures FormatGpuName(gpuName) == "A100" <==> !Contains(gpuName, "L40S") && Contains(gpuName, "A100")
    ensures FormatGpuName(gpuName) == "H100" <==>
              !Contains(gpuName, "L40S") && !Contains(gpuName, "A100") && Contains(gpuName, "H100")
    ensures FormatGpuName(gpuName) == "NONE" <==> !IsGpuType(FormatGpuName(gpuName))
  {
  }

  /** `[format_gpu_name(gpu) for gpu in gpu_list]` */
  function Formatted(gpuList: seq<string>): seq<string> {
    seq(|gpuList|, i requires 0 <= i < |gpuList| => FormatGpuName(gpuList[i]))
  }

  /** The types other than `NONE`, in order. */
  function Recognised(types: seq<string>): seq<string> {
    if types == [] then []
    else Recognised(types[..|types| - 1]) + (if types[|types| - 1] != "NONE" then [types[|types| - 1]] else [])
  }

  /** The distinct entries in order of first appearance: the keys of a dict in insertion order. */
  function FirstSeen(xs: seq<string>): seq<string> {
    if xs == [] then []
    else
      var init := FirstSeen(xs[..|xs| - 1]);
      if xs[|xs| - 1] in init then init else init + [xs[|xs| - 1]]
  }

  function Count(xs: seq<string>, x: string): nat {
    if xs == [] then 0 else Count(xs[..|xs| - 1], x) + (if xs[|xs| - 1] == x then 1 else 0)
  }

  /** `f"{gpu}x{count}"` */
  function Entry(gpu: string, count: nat): string {
    gpu + "x" + NatToString(count)
  }

  /**
   * What count_gpus returns for the types: `["NONE"]` when none is
   * recognised, else one entry per recognised type in order of first
   * appearance with the number of its occurrences.
   */
  function Entries(types: seq<string>): seq<string> {
    var rec := Recognised(types);
    var keys := FirstSeen(rec);
    if keys == [] then ["NONE"] else seq(|keys|, k requires 0 <= k < |keys| => Entry(keys[k], Count(rec, keys[k])))
  }

  /** `keys` and `counts` are a dict holding how often each entry of `xs` occurs, keyed in order of first appearance. */
  ghost predicate Tallied(xs: seq<string>, keys: seq<string>, counts: map<string, nat>) {
    && keys == FirstSeen(xs)
    && (forall g :: g in counts <==> g in keys)
    && (forall g :: g in counts ==> counts[g] == Count(xs, g))
  }

  /**
   * The dict loop of count_gpus: every type but `NONE` is counted, a type
   * seen for the first time is added as the last key.
   */
  method TallyTypes(types: seq<string>) returns (keys: seq<string>, counts: map<string, nat>)
    ensures Tallied(Recognised(types), keys, counts)
  {
    keys := [];
    counts := map[];
    for i := 0 to |types|
      invariant Tallied(Recognised(types[..i]), keys, counts)
    {
      var gpu := types[i];
      RecognisedStep(types, i);
      if gpu != "NONE" {
        TallyStep(Recognised(types[..i]), gpu, keys, counts);
        var count := if gpu in counts then counts[gpu] else 0;
        if gpu !in counts {
          keys := keys + [gpu];
        }
        counts := counts[gpu := count + 1];
        assert Tallied(Recognised(types[..i]) + [gpu], keys, counts);
        assert Recognised(types[..i + 1]) == Recognised(types[..i]) + [gpu];
      } else {
        assert Recognised(types[..i + 1]) == Recognised(types[..i]);
      }
    }
    assert types[..|types|] == types;
  }

  /** Counting one more entry keeps the dict in step with the entries. */
  lemma TallyStep(xs: seq<string>, x: string, keys: seq<string>, counts: map<string, nat>)
    requires Tallied(xs, keys, counts)
    ensures Tallied(xs + [x], if x in counts then keys else keys + [x],
                    counts[x := (if x in counts then counts[x] else 0) + 1])
  {
    CountStep(xs, x);
    if x !in counts {
      CountAbsent(xs, x);
    }
  }

  /** count_gpus: format every line, count the recognised types, then write one entry per type. */
  method CountGpus(gpuList: seq<string>) returns (r: seq<string>)
    ensures r == CountGpusResult(gpuList)
  {
    var formattedGpus := Formatted(gpuList);
    var keys, uniqueGpus := TallyTypes(formattedGpus);
    if |keys| == 0 {
      return ["NONE"];
    }
    r := seq(|keys|, k requires 0 <= k < |keys| => Entry(keys[k], uniqueGpus[keys[k]]));
  }

  lemma RecognisedStep(types: seq<string>, i: nat)
    requires i < |types|
    ensures Recognised(types[..i + 1]) ==
              Recognised(types[..i]) + (if types[i] != "NONE" then [types[i]] else [])
  {
    assert types[..i + 1][..i] == types[..i];
  }

  /** An entry not yet seen has not been counted. */
  lemma {:induction false} CountAbsent(xs: seq<string>, x: string)
    requires x !in FirstSeen(xs)
    ensures Count(xs, x) == 0
  {
    if xs != [] {
      CountAbsent(xs[..|xs| - 1], x);
    }
  }

  /** Appending one entry counts it once more and leaves the other counts alone. */
  lemma CountStep(xs: seq<string>, x: string)
    ensures forall g :: Count(xs + [x], g) == Count(xs, g) + (if g == x then 1 else 0)
    ensures FirstSeen(xs + [x]) == if x in FirstSeen(xs) then FirstSeen(xs) else FirstSeen(xs) + [x]
  {
    assert (xs + [x])[..|xs|] == xs;
  }

  /** A line is reduced to a known type or to `NONE`, so every recognised entry is a known type. */
  lemma RecognisedAreGpuTypes(gpuList: seq<string>)
    ensures forall t :: t in Recognised(Formatted(gpuList)) ==> IsGpuType(t)
  {
    OnlyGpuTypes(Formatted(gpuList));
  }

  lemma {:induction false} OnlyGpuTypes(types: seq<string>)
    requires forall i :: 0 <= i < |types| ==> types[i] == "NONE" || IsGpuType(types[i])
    ensures forall t :: t in Recognised(types) ==> IsGpuType(t)
  {
    if types != [] {
      var init := types[..|types| - 1];
      assert forall i :: 0 <= i < |init| ==> init[i] == types[i];
      OnlyGpuTypes(init);
    }
  }

  lemma RecognisedLast(types: seq<string>, t: string)
    ensures Recognised(types + [t]) == Recognised(types) + (if t != "NONE" then [t] else [])
  {
    assert (types + [t])[..|types|] == types;
  }

  /** A line naming no known GPU is dropped: the result is the same with or without it. */
  lemma NoneIgnored(gpuList: seq<string>, line: string)
    requires FormatGpuName(line) == "NONE"
    ensures CountGpusResult(gpuList + [line]) == CountGpusResult(gpuList)
  {
    var types := Formatted(gpuList);
    assert Formatted(gpuList + [line]) == types + ["NONE"];
    RecognisedLast(types, "NONE");
    assert Recognised(types + ["NONE"]) == Recognised(types);
  }

  /** count_gpus gives `["NONE"]` exactly when none of the lines names a known GPU. */
  lemma NothingRecognised(gpuList: seq<string>)
    ensures CountGpusResult(gpuList) == ["NONE"] <==>
              forall i :: 0 <= i < |gpuList| ==> FormatGpuName(gpuList[i]) == "NONE"
  {
    var types := Formatted(gpuList);
    RecognisedAreGpuTypes(gpuList);
    assert forall i :: 0 <= i < |gpuList| ==> types[i] == FormatGpuName(gpuList[i]);
    RecognisedEmpty(types);
    EntriesNone(types);
  }

  /** What count_gpus returns, as a function of its argument. */
  function CountGpusResult(gpuList: seq<string>): seq<string> {
    Entries(Formatted(gpuList))
  }

  lemma EntriesNone(types: seq<string>)
    requires forall t :: t in Recognised(types) ==> IsGpuType(t)
    ensures Entries(types) == ["NONE"] <==> Recognised(types) == []
  {
    var rec := Recognised(types);
    if rec != [] {
      FirstSeenMembers(rec);
      assert rec[0] in FirstSeen(rec);
      var keys := FirstSeen(rec);
      assert keys[0] in rec;
      var e := Entries(types);
      assert e[0] == Entry(keys[0], Count(rec, keys[0]));
      assert e[0][0] == keys[0][0];
    }
  }

  lemma {:induction false} RecognisedEmpty(types: seq<string>)
    ensures Recognised(types) == [] <==> forall i :: 0 <= i < |types| ==> types[i] == "NONE"
  {
    if types != [] {
      var init := types[..|types| - 1];
      RecognisedEmpty(init);
      assert forall i :: 0 <= i < |init| ==> init[i] == types[i];
    }
  }

  /** The keys are the entries, each once. */
  lemma {:induction false} FirstSeenMembers(xs: seq<string>)
    ensures forall x :: x in FirstSeen(xs) <==> x in xs
    ensures forall i, j :: 0 <= i < j < |FirstSeen(xs)| ==> FirstSeen(xs)[i] != FirstSeen(xs)[j]
  {
    if xs != [] {
      var init := xs[..|xs| - 1];
      FirstSeenMembers(init);
      assert xs == init + [xs[|xs| - 1]];
    }
  }

  /** Every key was counted at least once. */
  lemma {:induction false} CountPositive(xs: seq<string>, x: string)
    requires x in xs
    ensures Count(xs, x) >= 1
  {
    var init := xs[..|xs| - 1];
    if xs[|xs| - 1] != x {
      assert xs == init + [xs[|xs| - 1]];
      CountPositive(init, x);
    }
  }

  function SumCounts(xs: seq<string>, keys: seq<string>): nat {
    if keys == [] then 0 else Count(xs, keys[0]) + SumCounts(xs, keys[1..])
  }

  lemma {:induction false} SumCountsStep(xs: seq<string>, x: string, keys: seq<string>)
    requires forall i, j :: 0 <= i < j < |keys| ==> keys[i] != keys[j]
    ensures SumCounts(xs + [x], keys) == SumCounts(xs, keys) + (if x in keys then 1 else 0)
  {
    if keys != [] {
      CountStep(xs, x);
      SumCountsStep(xs, x, keys[1..]);
      assert x in keys <==> x == keys[0] || x in keys[1..];
    }
  }

  lemma {:induction false} SumCountsAppend(xs: seq<string>, keys: seq<string>, k: string)
    ensures SumCounts(xs, keys + [k]) == SumCounts(xs, keys) + Count(xs, k)
  {
    if keys != [] {
      assert (keys + [k])[1..] == keys[1..] + [k];
      SumCountsAppend(xs, keys[1..], k);
    }
  }

  /** The counts of the entries add up to the number of recognised lines. */
  lemma {:induction false} CountsAddUp(xs: seq<string>)
    ensures SumCounts(xs, FirstSeen(xs)) == |xs|
  {
    if xs != [] {
      var init := xs[..|xs| - 1];
      var x := xs[|xs| - 1];
      assert xs == init + [x];
      CountsAddUp(init);
      FirstSeenMembers(init);
      var keys := FirstSeen(init);
      SumCountsStep(init, x, keys);
      if x !in keys {
        SumCountsAppend(xs, keys, x);
        CountAbsent(init, x);
        CountStep(init, x);
      }
    }
  }

  /** Split at `x`, an entry gives back its type and the digits of its count. */
  lemma EntrySplits(t: string, count: nat)
    requires IsGpuType(t)
    ensures Split(Entry(t, count), 'x') == [t, NatToString(count)]
    ensures DigitsValue(NatToString(count)) == count
  {
    var digits := NatToString(count);
    assert forall i :: 0 <= i < |digits| ==> digits[i] != 'x';
    assert 'x' !in t;
    SplitAt(t, digits, 'x');
    SplitNone(digits, 'x');
  }

  /**
   * When some line is recognised, count_gpus names each known type found
   * once, with a positive count, and the counts add up to the number of
   * recognised lines.
   */
  lemma CountGpusEntries(gpuList: seq<string>)
    ensures var rec := Recognised(Formatted(gpuList));
            var keys := FirstSeen(rec);
            rec != [] ==>
              && |CountGpusResult(gpuList)| == |keys|
              && (forall k :: 0 <= k < |keys| ==>
                    IsGpuType(keys[k]) && Count(rec, keys[k]) >= 1 &&
                    CountGpusResult(gpuList)[k] == Entry(keys[k], Count(rec, keys[k])))
              && (forall j, k :: 0 <= j < k < |keys| ==> keys[j] != keys[k])
              && SumCounts(rec, keys) == |rec|
  {
    var rec := Recognised(Formatted(gpuList));
    RecognisedAreGpuTypes(gpuList);
    FirstSeenMembers(rec);
    CountsAddUp(rec);
    forall k | 0 <= k < |FirstSeen(rec)|
      ensures Count(rec, FirstSeen(rec)[k]) >= 1
    {
      CountPositive(rec, FirstSeen(rec)[k]);
    }
  }
}

/**
 * Tasks, batches and worker outcomes shared by the two batch schedulers, and
 * the slicing of a file's texts into batches.
 */
module BatchTypes {

  datatype Option<+T> = None | Some(value: T)

  type Text = string

  datatype Warning = Warning(kind: string, message: string)

  datatype FileTask = FileTask(filename: string, texts: seq<Text>, provider: string)

  /** `pos` is the file's position in the stream; it stands for the identity of the FileTask object. */
  datatype BatchTask =
    BatchTask(pos: nat, file: FileTask, index: nat, start: nat, end: nat, texts: seq<Text>)

  /** What the call of a translation function on a batch does. */
  datatype WorkerReply =
    | Raised
    | Reply(translated: Option<seq<Text>>, failed: bool, fellBack: bool, warnings: seq<Warning>)

  /** A batch task after processing, with the fields the worker sets on it. */
  datatype Processed =
    Processed(task: BatchTask, translated: Option<seq<Text>>, failed: bool, fellBack: bool)
  {
    function Texts(): seq<Text> {
      if translated.Some? then translated.value else []
    }

    predicate Bad() {
      failed || fellBack
    }
  }

  // ---------------------------------------------------------------- configuration

  const CHUNK_SIZE: nat := 40
  const OLLAMA_CHUNK_SIZE: nat := 20
  const LOCAL_LLM_CHUNK_SIZE: nat := 10
  const LOCAL_PROVIDERS: set<string> :=
    {"ollama", "lm_studio", "vllm", "koboldcpp", "oobabooga", "text-generation-webui", "hunyuan"}

  datatype Config = Config(maxWorkers: nat, chunkOverride: Option<int>)
  {
    /** The constructor keeps an override only when it is given and not zero, and never below one. */
    function EffectiveOverride(): (r: Option<nat>)
      ensures r.Some? ==> r.value >= 1
    {
      if chunkOverride.None? || chunkOverride.value == 0 then None
      else Some(if chunkOverride.value < 1 then 1 else chunkOverride.value)
    }

    function ChunkSize(provider: string): (c: nat)
      ensures c >= 1
    {
      if EffectiveOverride().Some? then EffectiveOverride().value
      else if provider == "ollama" then OLLAMA_CHUNK_SIZE
      else if provider in LOCAL_PROVIDERS then LOCAL_LLM_CHUNK_SIZE
      else CHUNK_SIZE
    }
  }

  /** The sizes: an override other than zero counts for every provider, and else the kind of provider. */
  lemma {:induction false} ChunkSizes(cfg: Config, provider: string)
    ensures cfg.chunkOverride.Some? && cfg.chunkOverride.value >= 1 ==>
              cfg.ChunkSize(provider) == cfg.chunkOverride.value
    ensures cfg.chunkOverride.Some? && cfg.chunkOverride.value < 0 ==> cfg.ChunkSize(provider) == 1
    ensures cfg.chunkOverride.None? || cfg.chunkOverride.value == 0 ==>
              cfg.ChunkSize("ollama") == 20 &&
              (provider in ["lm_studio", "vllm", "koboldcpp", "oobabooga", "text-generation-webui", "hunyuan"] ==>
                 cfg.ChunkSize(provider) == 10) &&
              (provider !in LOCAL_PROVIDERS ==> cfg.ChunkSize(provider) == 40)
  {
  }

  // ---------------------------------------------------------------- slicing

  function Flatten<T>(ss: seq<seq<T>>): seq<T> {
    if ss == [] then [] else ss[0] + Flatten(ss[1..])
  }

  /** Consecutive slices of length `c`, the last one possibly shorter. */
  function Slices<T>(s: seq<T>, c: nat): (r: seq<seq<T>>)
    requires c >= 1
    ensures Flatten(r) == s
    decreases |s|
  {
    if s == [] then []
    else if |s| <= c then
      assert [s][1..] == [];
      [s]
    else [s[..c]] + Slices(s[c..], c)
  }

  lemma {:induction false} FlattenAppend<T>(a: seq<seq<T>>, b: seq<seq<T>>)
    ensures Flatten(a + b) == Flatten(a) + Flatten(b)
  {
    if a == [] {
      assert a + b == b;
    } else {
      assert (a + b)[1..] == a[1..] + b;
      FlattenAppend(a[1..], b);
    }
  }

  lemma {:induction false} LaterSlice<T>(s: seq<T>, c: nat, i: nat)
    requires c >= 1 && 0 < i < |Slices(s, c)|
    ensures |s| > c && i - 1 < |Slices(s[c..], c)| && Slices(s, c)[i] == Slices(s[c..], c)[i - 1]
  {
  }

  lemma {:induction false} SliceOfRest<T>(s: seq<T>, c: nat, lo: nat, hi: nat)
    requires c <= |s| && lo <= hi <= |s| - c
    ensures s[c..][lo..hi] == s[lo + c..hi + c]
  {
  }

  lemma {:induction false} FirstSlice<T>(s: seq<T>, c: nat, start: nat)
    requires c >= 1 && 0 < |Slices(s, c)| && start == 0
    ensures start < |s| && Slices(s, c)[0] == s[start..if start + c <= |s| then start + c else |s|]
  {
    assert s[0..] == s;
  }

  function Times(i: nat, c: nat): nat {
    i * c
  }

  lemma {:induction false} TimesStep(i: nat, c: nat)
    ensures if i == 0 then Times(i, c) == 0 else Times(i - 1, c) + c == Times(i, c)
  {
  }

  lemma {:induction false} SliceStart<T>(s: seq<T>, c: nat, i: nat)
    requires c >= 1 && i < |Slices(s, c)|
    ensures var start := Times(i, c);
            start < |s| && Slices(s, c)[i] == s[start..if start + c <= |s| then start + c else |s|]
    decreases i
  {
    hide Slices, Times;
    TimesStep(i, c);
    if i == 0 {
      FirstSlice(s, c, Times(i, c));
    } else {
      LaterSlice(s, c, i);
      SliceStart(s[c..], c, i - 1);
      var lo := Times(i - 1, c);
      SliceOfRest(s, c, lo, if lo + c <= |s| - c then lo + c else |s| - c);
    }
  }

  /** The i-th slice starts at index i*c: the recursive slices are the ranges the schedulers cut. */
  lemma {:induction false} SliceAt<T>(s: seq<T>, c: nat, i: nat)
    requires c >= 1 && i < |Slices(s, c)|
    ensures i * c < |s|
    ensures Slices(s, c)[i] == s[i * c..if i * c + c <= |s| then i * c + c else |s|]
  {
    hide Slices;
    SliceStart(s, c, i);
  }

  lemma {:induction false} QuotientUnique(x: nat, c: nat, q: nat, r: nat)
    requires r < c && x == q * c + r
    ensures x / c == q
  {
    var q', r' := x / c, x % c;
    assert x == q' * c + r';
    assert (q' - q) * c == r - r';
    if q' > q {
      MulAtLeast(q' - q, c);
    } else if q' < q {
      MulAtLeast(q - q', c);
    }
  }

  lemma {:induction false} MulAtLeast(k: nat, c: nat)
    requires k >= 1
    ensures k * c >= c
  {
  }

  lemma {:induction false} DivStep(x: nat, c: nat)
    requires c >= 1
    ensures (x + c) / c == x / c + 1
  {
    var q, r := x / c, x % c;
    assert x == q * c + r;
    assert (q + 1) * c == q * c + c;
    QuotientUnique(x + c, c, q + 1, r);
  }

  /** The number of slices is the rounded-up quotient the scheduler computes beforehand. */
  lemma {:induction false} SliceCount<T>(s: seq<T>, c: nat)
    requires c >= 1
    ensures |Slices(s, c)| == (|s| + c - 1) / c
    ensures s != [] ==> |Slices(s, c)| > 0
    decreases |s|
  {
    if s == [] {
      QuotientUnique(c - 1, c, 0, c - 1);
    } else if |s| <= c {
      QuotientUnique(|s| - 1, c, 0, |s| - 1);
      DivStep(|s| - 1, c);
      assert |s| - 1 + c == |s| + c - 1;
    } else {
      SliceCount(s[c..], c);
      assert |s[c..]| + c - 1 == |s| - 1;
      DivStep(|s| - 1, c);
      assert |s| - 1 + c == |s| + c - 1;
    }
  }

  /** Slice `k` exists exactly when index k*c still lies inside the list. */
  lemma {:induction false} SliceIndex<T>(s: seq<T>, c: nat, k: nat)
    requires c >= 1
    ensures k < |Slices(s, c)| <==> k * c < |s|
    decreases k
  {
    if s == [] {
    } else if |s| <= c {
      if k > 0 {
        MulAtLeast(k, c);
      }
    } else if k > 0 {
      SliceIndex(s[c..], c, k - 1);
      assert (k - 1) * c + c == k * c;
    }
  }

  /** The indices 0, 1, ..., n-1. */
  function Range(n: nat): (r: set<nat>)
    ensures |r| == n
    ensures forall i: nat :: i in r <==> i < n
  {
    if n == 0 then {} else Range(n - 1) + {n - 1}
  }
}

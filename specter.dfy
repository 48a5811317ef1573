/**
 * The embedding side of the local index: the deterministic mock embedding used when no
 * SPECTER2 model is loaded, the text a paper is embedded from, and the token window the
 * model is fed. The hash of the text (`DefaultHasher`) is a parameter, and the model itself
 * (tokenizer and ONNX inference) is outside the model; float rounding is replaced by reals.
 */
module Specter {
  import opened Wrappers
  import opened Strings
  import opened Sequences

  /** Length of every embedding vector. */
  const EMBEDDING_DIMENSION: nat := 768

  /** The longest token sequence the model is given. */
  const MAX_SEQ_LEN: nat := 512

  const U64_MAX: nat := 0xFFFF_FFFF_FFFF_FFFF

  /** `s ^ (s << k)` */
  function XorLeft(s: bv64, k: nat): bv64
    requires k < 64
  {
    s ^ (s << k)
  }

  /** `s ^ (s >> k)` */
  function XorRight(s: bv64, k: nat): bv64
    requires k < 64
  {
    s ^ (s >> k)
  }

  /** One step of the xorshift generator: shift-xor by 13 left, 7 right, 17 left. */
  function XorShift(s: bv64): bv64 {
    XorLeft(XorRight(XorLeft(s, 13), 7), 17)
  }

  /** The generator state after `n` steps from `seed`. */
  function State(seed: bv64, n: nat): bv64 {
    if n == 0 then seed else XorShift(State(seed, n - 1))
  }

  lemma StateStep(seed: bv64, n: nat)
    ensures State(seed, n + 1) == XorShift(State(seed, n))
  {
  }

  lemma XorLeftNonZero(x: bv64)
    ensures x != 0 ==> XorLeft(x, 13) != 0 && XorLeft(x, 17) != 0
  {
  }

  lemma XorRightNonZero(x: bv64)
    ensures x != 0 ==> XorRight(x, 7) != 0
  {
  }

  /** Each shift-and-xor step loses no bit, so a non-zero state never becomes zero. */
  lemma XorShiftNonZero(s: bv64)
    ensures s != 0 ==> XorShift(s) != 0
  {
    XorLeftNonZero(s);
    XorRightNonZero(XorLeft(s, 13));
    XorLeftNonZero(XorRight(XorLeft(s, 13), 7));
  }

  lemma {:induction false} StateNonZero(seed: bv64, n: nat)
    requires seed != 0
    ensures State(seed, n) != 0
  {
    if n > 0 {
      StateNonZero(seed, n - 1);
      XorShiftNonZero(State(seed, n - 1));
    }
  }

  /** The vector component a state gives: the state scaled onto [-1, 1]. */
  function Component(s: bv64): (x: real)
    ensures -1.0 <= x <= 1.0
  {
    (s as int as real) / (U64_MAX as real) * 2.0 - 1.0
  }

  /** The mock embedding's components: component i comes from the state after i + 1 steps. */
  function MockValues(seed: bv64): (e: seq<real>)
    ensures |e| == EMBEDDING_DIMENSION
    ensures forall i :: 0 <= i < |e| ==> -1.0 <= e[i] <= 1.0
  {
    seq(EMBEDDING_DIMENSION, i requires 0 <= i => Component(State(seed, i + 1)))
  }

  /**
   * `mock_embedding`: seeds the generator with the hash of the text and steps it once per
   * component. The same text always gives the same vector.
   */
  method MockEmbedding(text: string, hash: string -> bv64) returns (e: seq<real>)
    ensures e == MockValues(hash(text))
    ensures |e| == EMBEDDING_DIMENSION
  {
    var seed := hash(text);
    var rngState := seed;
    e := [];
    var i := 0;
    while i < EMBEDDING_DIMENSION
      invariant 0 <= i <= EMBEDDING_DIMENSION
      invariant rngState == State(seed, i)
      invariant |e| == i
      invariant forall k :: 0 <= k < i ==> e[k] == Component(State(seed, k + 1))
    {
      rngState := XorLeft(rngState, 13);
      rngState := XorRight(rngState, 7);
      rngState := XorLeft(rngState, 17);
      StateStep(seed, i);
      e := e + [Component(rngState)];
      i := i + 1;
    }
  }

  /** `embed`'s input text: the title, followed by " [SEP] " and the abstract when that is non-empty. */
  function EmbedText(title: string, abstractText: Option<string>): string {
    match abstractText
    case Some(abs) => if abs != [] then title + " [SEP] " + abs else title
    case None => title
  }

  /** The text always starts with the title, and the abstract can be read back after the separator. */
  lemma EmbedTextShape(title: string, abstractText: Option<string>)
    ensures IsPrefix(title, EmbedText(title, abstractText))
    ensures (abstractText.Some? && abstractText.value != []) <==> |EmbedText(title, abstractText)| > |title|
    ensures abstractText.Some? && abstractText.value != [] ==>
              EmbedText(title, abstractText)[|title|..] == " [SEP] " + abstractText.value
  {
    var t := EmbedText(title, abstractText);
    assert t[..|title|] == title;
    if abstractText.Some? && abstractText.value != [] {
      assert t == title + (" [SEP] " + abstractText.value);
    }
  }

  /** The token ids and attention mask actually given to the model: at most the first 512 of each. */
  function TokenWindow(ids: seq<nat>, mask: seq<nat>): (w: (seq<nat>, seq<nat>))
    requires |mask| == |ids|
    ensures |w.0| == |w.1| <= MAX_SEQ_LEN
    ensures |w.0| == if |ids| < MAX_SEQ_LEN then |ids| else MAX_SEQ_LEN
    ensures w.0 == ids[..|w.0|] && w.1 == mask[..|w.1|]
  {
    (Truncate(ids, MAX_SEQ_LEN), Truncate(mask, MAX_SEQ_LEN))
  }

  /** The model output read back: the first 768 values for a rank-2 or rank-3 output, else an error. */
  function PoolOutput(rank: nat, data: seq<real>): (r: Result<seq<real>, string>)
    requires |data| >= EMBEDDING_DIMENSION
    ensures r.Ok? <==> rank == 2 || rank == 3
    ensures r.Ok? ==> |r.value| == EMBEDDING_DIMENSION && r.value == data[..|r.value|]
  {
    if rank == 3 || rank == 2 then Ok(data[..EMBEDDING_DIMENSION])
    else Err("Unexpected output shape")
  }
}

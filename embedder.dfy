/** What the index builder relies on from the embedder (cli/sift_search/embedder.py):
    its model identity and the shape of its output. The ONNX inference, tokenisation,
    mean pooling and normalisation are numerical work outside this model; the
    embedding model itself is an input. */
module Embedder {
  import opened PyText

  const ModelRepo: string := "Xenova/all-MiniLM-L6-v2"
  const ModelFile: string := "onnx/model_quantized.onnx"
  /** Length of every embedding vector. */
  const EmbeddingDim: nat := 384

  /** A float32 value, as its IEEE 754 bit pattern. */
  type Float32 = bv32
  type Vector = seq<Float32>

  /** The embedding model: a batch of texts to a batch of vectors. */
  type Model = seq<string> -> seq<Vector>

  /** `Embedder.model_name`: the repository id and the model file, joined by '/'; the
      name names a MiniLM model, which is what the doctor later looks for. */
  function ModelName(): (r: string)
    ensures Contains(r, "MiniLM")
    ensures |r| == |ModelRepo| + 1 + |ModelFile|
    ensures r[..|ModelRepo|] == ModelRepo && r[|ModelRepo|] == '/' && r[|ModelRepo| + 1..] == ModelFile
  {
    var r := ModelRepo + "/" + ModelFile;
    assert OccursAt(r, "MiniLM", 11) by {
      assert r[..|ModelRepo|] == ModelRepo;
      assert ModelRepo[11..17] == "MiniLM";
      assert r[11..17] == ModelRepo[11..17];
    }
    r
  }

  /** The embedder's contract: one vector per text, in order, each of 384 values. */
  predicate Embeds(texts: seq<string>, vectors: seq<Vector>) {
    |vectors| == |texts| && forall i | 0 <= i < |vectors| :: |vectors[i]| == EmbeddingDim
  }

  /** The embedder as the builder uses it: every call is recorded, in order, and
      answered by the model. */
  class Embedder {
    const model: Model
    var requests: seq<seq<string>>

    constructor (model: Model)
      ensures this.model == model && requests == []
    {
      this.model := model;
      requests := [];
    }

    /** `Embedder.embed(texts)`. */
    method Embed(texts: seq<string>) returns (vectors: seq<Vector>)
      modifies this
      ensures requests == old(requests) + [texts]
      ensures vectors == model(texts)
    {
      requests := requests + [texts];
      vectors := model(texts);
    }
  }
}

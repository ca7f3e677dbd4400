/** The generation protocol: requests, responses and the limits their schemas set. */
module GenerationContract {
  import opened Utf8

  type Text = seq<Scalar>

  datatype Request = Request(prompt: Text, context: Text, assistantPrefix: Text, maxNewTokens: nat)

  datatype Finish = Eos | Length

  datatype Response = Response(modelId: string, output: Text, generatedTokens: nat, finish: Finish)

  /** The limits of the request schema. */
  predicate RequestOk(q: Request) {
    1 <= |q.prompt| <= 100_000 && |q.context| <= 100_000 && |q.assistantPrefix| <= 1024 && 1 <= q.maxNewTokens <= 512
  }

  /** The limits of the response schema. */
  predicate ResponseOk(r: Response) {
    1 <= |r.modelId| <= 128 && |r.output| <= 2048 && r.generatedTokens <= 512
  }
}

/** The semantic RAG path (`SemanticRAG.run`): query the vector index with the
    question, pair each returned document with its distance, and hand the
    question and the chunks to the answering model. The index and the model
    are passed in as functions; distances are carried, never computed, so
    their type is a parameter. */
module SemanticRag {
  import opened Wrappers

  /** The `Chunk` record handed to the answering model. */
  datatype Chunk<D> = Chunk(document: string, distance: D)

  /** The part of the index's reply that `run` reads: one list of documents
      and one list of distances per query text. */
  datatype QueryReply<D> = QueryReply(documents: seq<seq<string>>, distances: seq<seq<D>>)

  /** What indexing past the end of a reply list raises. */
  const IndexOutOfRange := "list index out of range"

  /** The default number of neighbours requested. */
  const DefaultDepth := 2

  /** `[Chunk(document=docs[0][i], distance=dists[0][i]) for i in
      range(len(docs[0]))]`: it fails when there is no first document list,
      or when some document has no distance beside it. */
  function ChunkList<D>(reply: QueryReply<D>): (r: Result<seq<Chunk<D>>, string>)
    ensures r.Success? <==>
      (reply.documents != [] &&
       (reply.documents[0] == [] || (reply.distances != [] && |reply.documents[0]| <= |reply.distances[0]|)))
    ensures r.Failure? ==> r.error == IndexOutOfRange
    ensures r.Success? ==> |r.value| == |reply.documents[0]|
  {
    if reply.documents == [] then Failure(IndexOutOfRange)
    else
      var docs := reply.documents[0];
      if docs == [] then Success([])
      else if reply.distances == [] || |reply.distances[0]| < |docs| then Failure(IndexOutOfRange)
      else
        var dists := reply.distances[0];
        Success(seq(|docs|, i requires 0 <= i < |docs| => Chunk(docs[i], dists[i])))
  }

  function Documents<D>(chunks: seq<Chunk<D>>): seq<string>
  {
    seq(|chunks|, i requires 0 <= i < |chunks| => chunks[i].document)
  }

  function Distances<D>(chunks: seq<Chunk<D>>): seq<D>
  {
    seq(|chunks|, i requires 0 <= i < |chunks| => chunks[i].distance)
  }

  /** Unzipping the chunks gives back the first document list and the
      matching prefix of the first distance list: same entries, same order,
      nothing dropped, re-ranked or merged. */
  lemma ChunkListUnzip<D>(reply: QueryReply<D>)
    requires ChunkList(reply).Success?
    ensures Documents(ChunkList(reply).value) == reply.documents[0]
    ensures Documents(ChunkList(reply).value) != [] ==>
      Distances(ChunkList(reply).value) == reply.distances[0][..|reply.documents[0]|]
  {
  }

  /** The engine: the collection's `query`, taking the query texts and the
      number of results. */
  datatype SemanticRagEngine<D> = SemanticRagEngine(query: (seq<string>, int) -> QueryReply<D>)
  {
    /** What `run` returns: the answering model's reply for the question and
        the chunks of the index's reply to the question alone, asking for
        `depth` neighbours. */
    function Run<A>(question: string, questionAnswer: (string, seq<Chunk<D>>) -> A,
                    depth: int := DefaultDepth): (r: Result<A, string>)
      ensures r.Success? <==> ChunkList(query([question], depth)).Success?
      ensures r.Success? ==> r.value == questionAnswer(question, ChunkList(query([question], depth)).value)
    {
      var reply := query([question], depth);
      match ChunkList(reply)
      case Failure(e) => Failure(e)
      case Success(chunks) => Success(questionAnswer(question, chunks))
    }
  }
}

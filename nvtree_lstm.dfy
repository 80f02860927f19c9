/** The reader of the tree-LSTM application (`Reader`). It reads instances
    exactly as `SSTReader` does, with its own `MAX_LEN` and `MAX_DEPENDENCY`,
    and does not count nodes. */
module TreeLstmReader {
  import opened TopologyReader

  const MaxLen: nat := 56
  const MaxDependency: nat := 111

  /** `Reader::next_batch`: the batch is read with this reader's limits;
      `ok` is false when a check fails. */
  method NextBatch(batchSize: nat, inputLines: seq<string>, graphLines: seq<string>,
                   graph: array<int>, input: array<real>)
    returns (ok: bool)
    requires BatchAvailable(MaxDependency, batchSize, inputLines, graphLines)
    requires batchSize * MaxDependency <= graph.Length && batchSize * MaxDependency <= input.Length
    modifies graph, input
    ensures ok <==> BatchOk(MaxLen, Batch(batchSize, inputLines, graphLines))
    ensures ok ==> Laid(graph[..], GraphRows(Batch(batchSize, inputLines, graphLines)), batchSize, MaxDependency, -1)
    ensures ok ==> Laid(input[..], InputRows(Batch(batchSize, inputLines, graphLines)), batchSize, MaxDependency, 0.0)
  {
    var _, checked := TopologyReader.NextBatch(MaxLen, MaxDependency, batchSize, inputLines, graphLines, graph, input);
    ok := checked;
  }
}

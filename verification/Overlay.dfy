/** The candidate's overlay: the after-state of every file a diff touches. */
module Overlay {
  import opened Basics
  import opened Graph

  datatype OverlayNode = OverlayNode(id: NodeId, contentHash: Option<string>, kind: string, path: string, name: string)

  datatype OverlayEdge = OverlayEdge(src: NodeId, tgt: NodeId, resolved: bool)

  datatype OverlayFile = OverlayFile(nodes: seq<OverlayNode>, edges: seq<OverlayEdge>)

  ghost predicate InOverlay(files: seq<OverlayFile>, n: OverlayNode) {
    exists f :: f in files && n in f.nodes
  }

  lemma OverlayStep(files: seq<OverlayFile>, i: nat)
    requires i < |files|
    ensures forall n :: InOverlay(files[..i + 1], n) <==> InOverlay(files[..i], n) || n in files[i].nodes
  {
    assert files[..i + 1] == files[..i] + [files[i]];
    forall n | InOverlay(files[..i], n) ensures InOverlay(files[..i + 1], n) {
      var f :| f in files[..i] && n in f.nodes;
      assert f in files[..i + 1];
    }
    assert files[i] in files[..i + 1];
  }
}

/** Scene-graph nodes: a parent link and a list of children. */
module SceneNodes {

  class SceneNode {
    /** `_parent`. */
    var parent: SceneNode?
    /** `_children`. */
    var children: seq<SceneNode>

    /** A new node has no parent and no children. */
    constructor ()
      ensures parent == null && children == []
    {
      parent := null;
      children := [];
    }

    /** The `parent` getter. */
    method Parent() returns (p: SceneNode?)
      ensures p == parent
    {
      p := parent;
    }

    /** The `children` getter. */
    method Children() returns (c: seq<SceneNode>)
      ensures c == children
    {
      c := children;
    }

    /** `setParent(p)`: records the parent and returns the node itself for chaining. */
    method SetParent(p: SceneNode) returns (r: SceneNode)
      modifies this
      ensures parent == p && children == old(children)
      ensures r == this
    {
      parent := p;
      r := this;
    }

    /**
     * `addChild(...child)`: computes the concatenation of the children and the new ones,
     * discards it and returns the node itself; the node does not change.
     */
    method AddChild(child: seq<SceneNode>) returns (r: SceneNode)
      ensures r == this
      ensures children == old(children) && parent == old(parent)
    {
      var _ := children + child;
      r := this;
    }

    /** `addChild` as its name promises: the new children appended in order. */
    method AppendChildren(child: seq<SceneNode>) returns (r: SceneNode)
      modifies this
      ensures r == this
      ensures children == old(children) + child && parent == old(parent)
    {
      children := children + child;
      r := this;
    }
  }

  /** A child added to a fresh node through `addChild` is not among its children afterwards. */
  method AddChildLosesChild() returns (node: SceneNode, child: SceneNode)
    ensures node.children == [] && child !in node.children
  {
    node := new SceneNode();
    child := new SceneNode();
    var same := node.AddChild([child]);
  }

  /** Through the corrected operation the child is the node's only child. */
  method AppendChildrenKeepsChild() returns (node: SceneNode, child: SceneNode)
    ensures node.children == [child] && child in node.children
  {
    node := new SceneNode();
    child := new SceneNode();
    var same := node.AppendChildren([child]);
  }
}

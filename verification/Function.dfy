/** The mutable function object every pass works on. */
module Functions {
  import opened Ir
  import opened Graph

  class Function {
    var code: Code                     // instruction lists, by block id
    var types: seq<Ty>                 // the type of every value created so far

    // Filled in by the CFG pass.
    var rpo: seq<nat>                  // blocks in reverse postorder
    var rpoIndex: seq<int>             // position in rpo, -1 when unreachable
    var preds: seq<seq<nat>>

    var visited: seq<bool>             // scratch for the depth-first search

    // Filled in by the dominator passes. -1 stands for a null pointer.
    var idom: seq<int>
    var frontier: seq<seq<nat>>

    /** The graph together with what the CFG pass recorded about it. */
    ghost function Analysis(): Numbering
      reads this`code, this`rpo, this`rpoIndex, this`preds
    {
      Numbering(Flow(code), rpo, rpoIndex, preds)
    }

    ghost predicate Analyzed()
      reads this
    {
      Numbered(Analysis()) && Grounded(Analysis()) && |idom| == |frontier| == |code|
    }
  }
}

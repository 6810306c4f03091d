/**
 The stack that mirrors where in a tree marshalling and unmarshalling are (resolver.py).
 */
module TreeResolver {
  import opened Options
  import opened SoapSchema

  datatype Frame = Frame(kind: Id, resolved: Id, withinOptional: bool)

  function FrameOf(s: Schema, c: Child): Frame {
    Frame(c.id, Real(s, c.id), c.withinOptional)
  }

  /** The resolved type on top, None when the stack is empty. */
  function ParentOf(stack: seq<Frame>): Option<Id> {
    if stack == [] then None else Some(stack[|stack| - 1].resolved)
  }

  /** What is pushed last is the parent of what is looked up next, and content always has its own type resolved. */
  lemma ParentIsLast(s: Schema, stack: seq<Frame>, c: Child)
    ensures ParentOf(stack + [FrameOf(s, c)]) == Some(s.at(c.id).resolved) && ParentOf([]) == None
  {
  }

  class Resolver {
    var stack: seq<Frame>

    constructor ()
      ensures stack == []
    {
      stack := [];
    }

    method Reset()
      modifies this
      ensures stack == []
    {
      stack := [];
    }

    method Push(frame: Frame)
      modifies this
      ensures stack == old(stack) + [frame]
    {
      stack := stack + [frame];
    }

    /** Popping an empty stack does nothing. */
    method Pop()
      modifies this
      ensures stack == if old(stack) == [] then [] else old(stack)[..|old(stack)| - 1]
    {
      if |stack| > 0 {
        stack := stack[..|stack| - 1];
      }
    }

    method Top() returns (frame: Option<Frame>)
      ensures frame == if stack == [] then None else Some(stack[|stack| - 1])
    {
      if |stack| > 0 {
        frame := Some(stack[|stack| - 1]);
      } else {
        frame := None;
      }
    }

    /** Finds a name below the type on top, and pushes what it finds. */
    method Find(s: Schema, name: string) returns (found: Option<Child>)
      modifies this
      ensures found == SoapSchema.Find(s, ParentOf(old(stack)), name)
      ensures stack == if found.None? then old(stack) else old(stack) + [FrameOf(s, found.value)]
    {
      var top := Top();
      found := SoapSchema.Find(s, if top.None? then None else Some(top.value.resolved), name);
      if found.Some? {
        Push(FrameOf(s, found.value));
      }
    }
  }
}

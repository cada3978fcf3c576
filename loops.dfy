/** The cycle guard of the recursive listing (src/filesystem/loop_manager.rs):
    the set of directories currently being listed and the stack of the same
    identities in the order they were entered. */
module Loops {
  import opened Base
  import opened Identity

  /** The elements of a stack, as a set. */
  function Elems(stack: seq<DevIno>): (s: set<DevIno>)
    ensures forall d :: d in s <==> d in stack
  {
    set d | d in stack
  }

  predicate NoDuplicates(stack: seq<DevIno>) {
    forall i, j :: 0 <= i < j < |stack| ==> stack[i] != stack[j]
  }

  /** The guard's invariant under the source's protocol: the active set is exactly
      the directories on the stack, each entered once. */
  predicate Consistent(active: set<DevIno>, stack: seq<DevIno>) {
    active == Elems(stack) && NoDuplicates(stack)
  }

  /** Entering a directory that is not active and pushing it keeps the invariant
      (the `visit_dir` then `dev_ino_push` order of print_dir). */
  lemma EnterKeepsConsistent(active: set<DevIno>, stack: seq<DevIno>, d: DevIno)
    requires Consistent(active, stack)
    requires d !in active
    ensures Consistent(active + {d}, stack + [d])
  {
    assert Elems(stack + [d]) == Elems(stack) + {d};
  }

  /** Popping the top identity and removing it from the set keeps the invariant,
      and the popped identity is no longer active. */
  lemma {:induction false} LeaveKeepsConsistent(active: set<DevIno>, stack: seq<DevIno>)
    requires Consistent(active, stack)
    requires |stack| > 0
    ensures Consistent(active - {stack[|stack| - 1]}, stack[..|stack| - 1])
    ensures stack[|stack| - 1] !in active - {stack[|stack| - 1]}
  {
    var top := stack[|stack| - 1];
    var rest := stack[..|stack| - 1];
    assert stack == rest + [top];
    assert top !in rest by {
      forall i | 0 <= i < |rest| ensures rest[i] != top {
        assert rest[i] == stack[i];
      }
    }
    assert Elems(rest) == Elems(stack) - {top};
  }

  class LoopManager {
    /** `active_dir_set` */
    var activeDirSet: set<DevIno>
    /** `dev_ino_stack`, bottom first */
    var devInoStack: seq<DevIno>

    predicate Valid()
      reads this
    {
      Consistent(activeDirSet, devInoStack)
    }

    /** `LoopManager::new` */
    constructor ()
      ensures activeDirSet == {} && devInoStack == []
      ensures Valid()
    {
      activeDirSet := {};
      devInoStack := [];
    }

    /** `visit_dir`: `HashSet::insert`, true iff the identity was not yet active. */
    method VisitDir(dev: u64, ino: u64) returns (inserted: bool)
      modifies this
      ensures inserted <==> DevIno(dev, ino) !in old(activeDirSet)
      ensures activeDirSet == old(activeDirSet) + {DevIno(dev, ino)}
      ensures devInoStack == old(devInoStack)
    {
      var ent := NewDevIno(dev, ino);
      inserted := ent !in activeDirSet;
      activeDirSet := activeDirSet + {ent};
    }

    /** `dev_ino_push`: the stack grows, the set is untouched. */
    method DevInoPush(dev: u64, ino: u64)
      modifies this
      ensures devInoStack == old(devInoStack) + [DevIno(dev, ino)]
      ensures activeDirSet == old(activeDirSet)
    {
      devInoStack := devInoStack + [NewDevIno(dev, ino)];
    }

    /** `dev_ino_pop`: the source unwraps the popped value, so the stack must not be empty. */
    method DevInoPop()
      requires |devInoStack| > 0
      modifies this
      ensures devInoStack == old(devInoStack)[..|old(devInoStack)| - 1]
      ensures activeDirSet == old(activeDirSet) - {old(devInoStack)[|old(devInoStack)| - 1]}
    {
      var devIno := devInoStack[|devInoStack| - 1];
      devInoStack := devInoStack[..|devInoStack| - 1];
      activeDirSet := activeDirSet - {devIno};
    }
  }

  /** The recursive listing's use of the guard (src/filesystem/mod.rs:280-288):
      visit, and only on success push. A directory already active is refused and
      nothing changes; otherwise it becomes active and the invariant is kept. */
  method EnterDirectory(lm: LoopManager, dev: u64, ino: u64) returns (entered: bool)
    requires lm.Valid()
    modifies lm
    ensures lm.Valid()
    ensures entered <==> DevIno(dev, ino) !in old(lm.activeDirSet)
    ensures entered ==> lm.devInoStack == old(lm.devInoStack) + [DevIno(dev, ino)]
    ensures !entered ==> lm.activeDirSet == old(lm.activeDirSet) && lm.devInoStack == old(lm.devInoStack)
  {
    ghost var active, stack := lm.activeDirSet, lm.devInoStack;
    entered := lm.VisitDir(dev, ino);
    if entered {
      lm.DevInoPush(dev, ino);
      EnterKeepsConsistent(active, stack, DevIno(dev, ino));
    }
  }

  /** Leaving the innermost directory keeps the invariant, and afterwards the same
      directory can be entered again. */
  method LeaveThenReenter(lm: LoopManager) returns (reentered: bool)
    requires lm.Valid() && |lm.devInoStack| > 0
    modifies lm
    ensures reentered
    ensures lm.Valid()
    ensures lm.devInoStack == old(lm.devInoStack)
    ensures lm.activeDirSet == old(lm.activeDirSet)
  {
    var top := lm.devInoStack[|lm.devInoStack| - 1];
    LeaveKeepsConsistent(lm.activeDirSet, lm.devInoStack);
    lm.DevInoPop();
    assert old(lm.devInoStack) == lm.devInoStack + [top];
    reentered := EnterDirectory(lm, top.stDev, top.stIno);
  }

  /** Two visits of the same directory without a pop in between: the second is
      refused and leaves the guard as the first one left it. */
  method VisitTwice(lm: LoopManager, dev: u64, ino: u64) returns (first: bool, second: bool)
    modifies lm
    ensures first <==> DevIno(dev, ino) !in old(lm.activeDirSet)
    ensures !second
    ensures lm.activeDirSet == old(lm.activeDirSet) + {DevIno(dev, ino)}
    ensures lm.devInoStack == old(lm.devInoStack)
  {
    first := lm.VisitDir(dev, ino);
    second := lm.VisitDir(dev, ino);
  }
}

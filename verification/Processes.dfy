/** A process of the scheduler, stepped in place. */
module Processes {
  import opened Options
  import opened Tasks

  /** The machine after `n` turns of its loop, or where the loop stopped before. */
  function Following<C, V, B>(call: Call<C, V, B>, m: Machine<C, V, B>, n: nat): Machine<C, V, B>
    decreases n
  {
    if n == 0 then m
    else
      match Iterate(call, m)
      case Stop(m') => m'
      case Next(m') => Following(call, m', n - 1)
  }

  /** A loop that stops within `n` turns has stopped where it stops. */
  lemma {:induction false} FollowingStops<C, V, B>(call: Call<C, V, B>, m: Machine<C, V, B>, n: nat)
    requires Run(call, m, n).Some?
    ensures Following(call, m, n) == Run(call, m, n).value
    decreases n
  {
    match Iterate(call, m)
    case Stop(_) =>
    case Next(m') => FollowingStops(call, m', n - 1);
  }

  class Process<C, V, B> {
    var root: Option<Task<C, V, B>>
    var stack: seq<Frame<C>>
    var mailbox: seq<V>

    function Contents(): Machine<C, V, B>
      reads this
    {
      Machine(root, stack, mailbox)
    }

    constructor (task: Task<C, V, B>)
      ensures Contents() == Machine(Some(task), [], [])
    {
      root, stack, mailbox := Some(task), [], [];
    }

    /** Steps until the process is dead, done, waiting for a message, or at a binding, which the
        caller is to start. Since a task may run forever, the loop is followed for `n` turns; it
        `stopped` exactly when it ends within them. */
    method Step(call: Call<C, V, B>, n: nat) returns (stopped: bool, start: Option<B>)
      modifies this
      ensures Contents() == Following(call, old(Contents()), n)
      ensures stopped <==> Run(call, old(Contents()), n).Some?
      ensures stopped ==> Run(call, old(Contents()), n) == Some(Contents())
      ensures start == if stopped && root.Some? && root.value.Binding? then Some(root.value.start) else None
    {
      ghost var first := Contents();
      var left := n;
      stopped, start := false, None;
      while left > 0
        invariant Following(call, Contents(), left) == Following(call, first, n)
        invariant Run(call, Contents(), left) == Run(call, first, n)
        decreases left
      {
        if root.None? {
          stopped := true;
          return;
        }
        var task := root.value;
        if task.Succeed? || task.Fail? {
          var goesOn := PassResult(call);
          if !goesOn {
            stopped := true;
            return;
          }
        } else {
          match task
          case AndThen(callback, inner) =>
            stack := [Frame(OnSucceed, callback)] + stack;
            root := Some(inner);
          case OnError(callback, inner) =>
            stack := [Frame(OnFail, callback)] + stack;
            root := Some(inner);
          case Binding(b) =>
            stopped, start := true, Some(b);
            return;
          case Receive(callback) =>
            if mailbox == [] {
              stopped := true;
              return;
            }
            root, mailbox := Some(call(callback, mailbox[0])), mailbox[1..];
        }
        left := left - 1;
      }
    }

    /** Drops the frames of the other kind, and passes the result to the one left on top. */
    method PassResult(call: Call<C, V, B>) returns (goesOn: bool)
      requires root.Some? && IsResult(root.value)
      modifies this
      ensures goesOn <==> Iterate(call, old(Contents())).Next?
      ensures Contents() == Iterate(call, old(Contents())).m
    {
      var tag := ResultTag(root.value);
      while stack != [] && stack[0].tag != tag
        invariant root == old(root) && mailbox == old(mailbox)
        invariant Skip(stack, tag) == Skip(old(stack), tag)
        decreases |stack|
      {
        stack := stack[1..];
      }
      goesOn := stack != [];
      if goesOn {
        root, stack := Some(call(stack[0].callback, ResultValue(root.value))), stack[1..];
      }
    }
  }
}

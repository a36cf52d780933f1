/** Ownership of descriptors by `Socket` objects: moving, releasing and closing over any sequence of operations. */
module Sockets {
  const NONE: int := -1

  /** How often each descriptor was handed to close(). */
  class Kernel {
    var closed: multiset<int>

    constructor ()
      ensures closed == multiset{}
    {
      closed := multiset{};
    }
  }

  class Socket {
    var fd: int

    constructor (fd: int)
      ensures this.fd == fd
    {
      this.fd := fd;
    }

    /** `close`, also run by the destructor: closes what is owned, once. */
    method Close(kernel: Kernel)
      modifies this, kernel
      ensures fd == if old(fd) >= 0 then NONE else old(fd)
      ensures kernel.closed == old(kernel.closed) + Owned(old(fd))
    {
      if fd >= 0 {
        kernel.closed := kernel.closed + multiset{fd};
        fd := NONE;
      }
    }

    method Release() returns (r: int)
      modifies this
      ensures r == old(fd) && fd == NONE
    {
      r := fd;
      fd := NONE;
    }

    /** Move assignment: the old descriptor is closed, the new one changes hands; self-assignment does nothing. */
    method MoveFrom(other: Socket, kernel: Kernel)
      modifies this, other, kernel
      ensures this == other ==> fd == old(fd) && kernel.closed == old(kernel.closed)
      ensures this != other ==> fd == old(other.fd) && other.fd == NONE
                                && kernel.closed == old(kernel.closed) + Owned(old(fd))
    {
      if this != other {
        Close(kernel);
        fd := other.fd;
        other.fd := NONE;
      }
    }
  }

  function Owned(fd: int): multiset<int> {
    if fd >= 0 then multiset{fd} else multiset{}
  }

  // ---------------------------------------------------------------- any sequence of operations

  /** Some sockets, the descriptors released from them, those closed, and those the kernel handed out. */
  datatype State = State(fds: seq<int>, released: multiset<int>, closed: multiset<int>, obtained: multiset<int>)

  datatype Op =
    | Adopt(i: nat, fd: int)         // Socket(fd) for a descriptor just opened, moved into place
    | Readopt(i: nat, fd: int)       // Socket(fd) for a descriptor released earlier
    | MoveAssign(i: nat, j: nat)
    | Release(i: nat)
    | Close(i: nat)

  predicate Enabled(s: State, op: Op) {
    match op
    case Adopt(i, fd) => i < |s.fds| && fd >= 0
    case Readopt(i, fd) => i < |s.fds| && fd >= 0 && fd in s.released
    case MoveAssign(i, j) => i < |s.fds| && j < |s.fds|
    case Release(i) => i < |s.fds|
    case Close(i) => i < |s.fds|
  }

  function Put(s: State, i: nat, fd: int): State
    requires i < |s.fds|
  {
    s.(fds := s.fds[i := fd], closed := s.closed + Owned(s.fds[i]))
  }

  function Apply(s: State, op: Op): State
    requires Enabled(s, op)
  {
    match op
    case Adopt(i, fd) => Put(s, i, fd).(obtained := s.obtained + multiset{fd})
    case Readopt(i, fd) => Put(s, i, fd).(released := s.released - multiset{fd})
    case MoveAssign(i, j) => if i == j then s else (var t := Put(s, i, s.fds[j]); t.(fds := t.fds[j := NONE]))
    case Release(i) => s.(fds := s.fds[i := NONE], released := s.released + Owned(s.fds[i]))
    case Close(i) => Put(s, i, NONE)
  }

  /** How many of the sockets own descriptor `c`. */
  function Owners(fds: seq<int>, c: nat): nat {
    if fds == [] then 0 else Owned(fds[0])[c] + Owners(fds[1..], c)
  }

  lemma {:induction false} OwnersUpdate(fds: seq<int>, i: nat, fd: int, c: nat)
    requires i < |fds|
    ensures Owners(fds[i := fd], c) + Owned(fds[i])[c] == Owners(fds, c) + Owned(fd)[c]
  {
    hide Owned;
    if i == 0 {
      assert fds[i := fd][1..] == fds[1..];
    } else {
      assert fds[i := fd][1..] == fds[1..][i - 1 := fd];
      OwnersUpdate(fds[1..], i - 1, fd, c);
    }
  }

  /** A descriptor is owned by sockets, released, or closed, together as often as it was obtained. */
  predicate Balanced(s: State, c: nat) {
    s.obtained[c] == Owners(s.fds, c) + s.released[c] + s.closed[c]
  }

  lemma PutKeepsBalance(s: State, i: nat, fd: int, c: nat)
    requires i < |s.fds|
    ensures Owners(Put(s, i, fd).fds, c) + Put(s, i, fd).closed[c] == Owners(s.fds, c) + s.closed[c] + Owned(fd)[c]
  {
    hide Owned;
    OwnersUpdate(s.fds, i, fd, c);
  }

  lemma MoveKeepsBalance(s: State, i: nat, j: nat, c: nat)
    requires i < |s.fds| && j < |s.fds| && i != j && Balanced(s, c)
    ensures Balanced(Apply(s, MoveAssign(i, j)), c)
  {
    PutKeepsBalance(s, i, s.fds[j], c);
    OwnersUpdate(Put(s, i, s.fds[j]).fds, j, NONE, c);
  }

  lemma StepKeepsBalance(s: State, op: Op, c: nat)
    requires Enabled(s, op) && Balanced(s, c)
    ensures Balanced(Apply(s, op), c)
  {
    match op
    case Adopt(i, fd) => PutKeepsBalance(s, i, fd, c);
    case Readopt(i, fd) => PutKeepsBalance(s, i, fd, c);
    case MoveAssign(i, j) =>
      if i != j {
        MoveKeepsBalance(s, i, j, c);
      }
    case Release(i) => OwnersUpdate(s.fds, i, NONE, c);
    case Close(i) => PutKeepsBalance(s, i, NONE, c);
  }

  ghost predicate IsRun(n: nat, states: seq<State>, ops: seq<Op>) {
    && |states| == |ops| + 1
    && states[0] == State(seq(n, _ => NONE), multiset{}, multiset{}, multiset{})
    && forall i :: 0 <= i < |ops| ==> Enabled(states[i], ops[i]) && states[i + 1] == Apply(states[i], ops[i])
  }

  lemma {:induction false} NothingOwned(fds: seq<int>, c: nat)
    requires forall i :: 0 <= i < |fds| ==> fds[i] < 0
    ensures Owners(fds, c) == 0
  {
    if fds == [] {
    } else {
      NothingOwned(fds[1..], c);
    }
  }

  lemma {:induction false} RunsAreBalanced(n: nat, states: seq<State>, ops: seq<Op>, k: nat, c: nat)
    requires IsRun(n, states, ops) && k < |states|
    ensures Balanced(states[k], c)
  {
    hide Apply, Enabled;
    if k == 0 {
      NothingOwned(states[0].fds, c);
    } else {
      RunsAreBalanced(n, states, ops, k - 1, c);
      StepKeepsBalance(states[k - 1], ops[k - 1], c);
    }
  }

  /**
    Whatever the sequence of moves, releases and closes, a descriptor is never owned and closed more often than it was
    obtained; and once no socket owns anything and nothing is left released, it was closed exactly as often.
    */
  lemma DescriptorsAreClosedOnce(n: nat, states: seq<State>, ops: seq<Op>, k: nat, c: nat)
    requires IsRun(n, states, ops) && k < |states|
    ensures Owners(states[k].fds, c) + states[k].closed[c] <= states[k].obtained[c]
    ensures (forall i :: 0 <= i < |states[k].fds| ==> states[k].fds[i] < 0) && c !in states[k].released
            ==> states[k].closed[c] == states[k].obtained[c]
  {
    RunsAreBalanced(n, states, ops, k, c);
    if forall i :: 0 <= i < |states[k].fds| ==> states[k].fds[i] < 0 {
      NothingOwned(states[k].fds, c);
    }
  }

  // ---------------------------------------------------------------- the objects perform the machine's operations

  /** Distinct socket objects and the kernel stand for a state of the machine. */
  ghost predicate Stands(sockets: seq<Socket>, kernel: Kernel, s: State)
    reads sockets, kernel
  {
    && |sockets| == |s.fds|
    && (forall i, j :: 0 <= i < j < |sockets| ==> sockets[i] != sockets[j])
    && (forall i :: 0 <= i < |sockets| ==> sockets[i].fd == s.fds[i] >= NONE)
    && kernel.closed == s.closed
  }

  /** Any operation, done with the class's methods, is the machine's step; a released descriptor goes to the caller. */
  method Perform(sockets: seq<Socket>, kernel: Kernel, op: Op, ghost s: State) returns (released: int)
    requires Stands(sockets, kernel, s) && Enabled(s, op)
    modifies sockets, kernel
    ensures Stands(sockets, kernel, Apply(s, op))
    ensures op.Release? ==> released == s.fds[op.i]
  {
    released := NONE;
    match op {
      case Adopt(i, fd) => PutInto(sockets, kernel, i, fd, s);
      case Readopt(i, fd) => PutInto(sockets, kernel, i, fd, s);
      case MoveAssign(i, j) => sockets[i].MoveFrom(sockets[j], kernel);
      case Release(i) => released := sockets[i].Release();
      case Close(i) => sockets[i].Close(kernel);
    }
  }

  /** A new socket is made for the descriptor and moved into place. */
  method PutInto(sockets: seq<Socket>, kernel: Kernel, i: nat, fd: int, ghost s: State)
    requires Stands(sockets, kernel, s) && i < |sockets| && fd >= 0
    modifies sockets, kernel
    ensures Stands(sockets, kernel, Put(s, i, fd))
  {
    var holder := new Socket(fd);
    sockets[i].MoveFrom(holder, kernel);
  }
}

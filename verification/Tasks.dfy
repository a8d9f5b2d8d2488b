/** Task descriptors, packed task ids and the fixed stack arena (include/kernel/task.h). */
module Tasks {
  import opened Common

  const MAX_TASKS: nat := 128
  const MAX_PRIORITY: nat := 32

  type Message = seq<byte>

  datatype Status = Ready | SendBlock | ReceiveBlock | ReplyBlock

  /** One descriptor, without its intrusive link. The memory behind recv_buf is `inbox`,
      the memory behind send_id is `sender`, and the r0 slot of the trap frame is `ret`. */
  datatype Task = Task(
    id: nat,
    parent: nat,
    sp: nat,
    status: Status,
    sendBuf: Message,
    recvCap: nat,
    inbox: Message,
    sender: nat,
    ret: int,
    originalReceiver: int)

  const EMPTY_TASK := Task(0, 0, 0, Ready, [], 0, [], 0, 0, -1)

  function MakeId(index: nat, priority: nat, unique: nat): nat {
    index + MAX_TASKS * priority + MAX_TASKS * MAX_PRIORITY * unique
  }

  function IndexOf(id: nat): (i: nat)
    ensures i < MAX_TASKS
  {
    id % MAX_TASKS
  }

  function PriorityOf(id: nat): (p: nat)
    ensures p < MAX_PRIORITY
  {
    id / MAX_TASKS % MAX_PRIORITY
  }

  /** Packing loses nothing, and the packed id fits in a positive 32-bit int. */
  lemma IdFields(index: nat, priority: nat, unique: nat)
    requires index < MAX_TASKS && priority < MAX_PRIORITY && unique < 0x8_0000
    ensures IndexOf(MakeId(index, priority, unique)) == index
    ensures PriorityOf(MakeId(index, priority, unique)) == priority
    ensures MakeId(index, priority, unique) < 0x8000_0000
  {
    var rest := priority + MAX_PRIORITY * unique;
    assert MakeId(index, priority, unique) == index + MAX_TASKS * rest;
    assert MakeId(index, priority, unique) / MAX_TASKS == rest;
  }

  // ----- stacks -----

  const STACK_HIGH: nat := 0x1f0_0000
  /** Trap frame and stack of one task, in words and in bytes. */
  const STACK_WORDS: nat := 15 + 128 * 1024
  const STACK_BYTES: nat := 4 * STACK_WORDS
  /** The lower end of the arena: the word count of 128 stacks taken as a byte count. */
  const STACK_LOW: nat := STACK_HIGH - MAX_TASKS * STACK_WORDS

  /** How many stacks the arena really holds. */
  const STACKS: nat := 32

  /** The n-th task finds room for its stack exactly if n <= 32. */
  lemma ArenaHoldsOnly32Stacks(n: nat)
    requires n > 0
    ensures var top := STACK_HIGH - STACK_BYTES * (n - 1); top - STACK_BYTES >= STACK_LOW <==> n <= STACKS
  {
  }

  function Min(a: nat, b: nat): nat {
    if a < b then a else b
  }

  /** What a bounded copy delivers: the first min(|m|, cap) bytes. */
  function Take(m: Message, cap: nat): Message {
    m[..Min(|m|, cap)]
  }

  /** It is a prefix of the message, cut only if it would not fit. */
  lemma TakeIsPrefix(m: Message, cap: nat)
    ensures |Take(m, cap)| <= cap && |Take(m, cap)| <= |m|
    ensures |Take(m, cap)| == |m| || |Take(m, cap)| == cap
    ensures forall i: nat :: i < |Take(m, cap)| ==> Take(m, cap)[i] == m[i]
  {
  }
}

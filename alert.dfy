/** The status-bar alert (`push_alert` and the timer step of
    `update_logic`): a message buffer, the kind of message, and a frame timer
    that is 0 while no alert shows. */
module Alerts {
  import opened CStrings

  /** The size of the message buffer. */
  const CAPACITY: nat := 256
  /** The frame count at which the timer returns to 0. */
  const EXPIRY: int := 300
  /** The extra frames `push_alert` asks the main loop to run. */
  const EXTRA_FRAMES: nat := 310

  datatype AlertType = Error | Info

  /** The timer step of one frame: a running timer counts up and is reset to
      0 when it reaches `EXPIRY`. */
  function NextTimer(t: int): int {
    var t' := if t > 0 then t + 1 else t;
    if t' == EXPIRY then 0 else t'
  }

  /** The timer after k frames. */
  function Ticks(t: int, k: nat): int
    decreases k
  {
    if k == 0 then t else Ticks(NextTimer(t), k - 1)
  }

  /** The buffer after `push_alert(msg)`: `strlen(msg) + 1` characters, the
      terminator included, but never more than the buffer holds, are copied
      over its start; the rest keeps its old contents. */
  function Stored(buffer: seq<char>, msg: seq<char>): (r: seq<char>)
    requires |buffer| == CAPACITY && NUL !in msg
    ensures |r| == CAPACITY
  {
    var n := if |msg| + 1 < CAPACITY then |msg| + 1 else CAPACITY;
    (msg + [NUL])[..n] + buffer[n..]
  }

  class Alert {
    const text: array<char>
    var timer: int
    var kind: AlertType
    /** The frames the main loop keeps running without input. */
    var forceLoopFrames: nat

    ghost predicate Valid()
      reads this
    {
      text.Length == CAPACITY && 0 <= timer < EXPIRY
    }

    constructor ()
      ensures Valid() && timer == 0 && kind == Error && forceLoopFrames == 0
    {
      text := new char[CAPACITY](_ => NUL);
      timer := 0;
      kind := Error;
      forceLoopFrames := 0;
    }

    /** `push_alert`. */
    method Push(msg: seq<char>, k: AlertType)
      requires Valid() && NUL !in msg
      modifies this, text
      ensures Valid() && timer == 1 && kind == k
      ensures forceLoopFrames == old(forceLoopFrames) + EXTRA_FRAMES
      ensures text[..] == Stored(old(text[..]), msg)
    {
      var n := if |msg| + 1 < CAPACITY then |msg| + 1 else CAPACITY;
      CopyPrefix(text, msg + [NUL], n);
      timer := 1;
      kind := k;
      forceLoopFrames := forceLoopFrames + EXTRA_FRAMES;
    }

    /** The alert step of `update_logic`, once per frame. */
    method Tick()
      requires Valid()
      modifies this
      ensures Valid() && timer == NextTimer(old(timer))
      ensures kind == old(kind) && forceLoopFrames == old(forceLoopFrames)
    {
      if timer > 0 {
        timer := timer + 1;
      }
      if timer == EXPIRY {
        timer := 0;
      }
    }

    /** `loader_thread` hides any alert before it starts a load. */
    method Clear()
      requires Valid()
      modifies this
      ensures Valid() && timer == 0 && kind == old(kind) && forceLoopFrames == old(forceLoopFrames)
    {
      timer := 0;
    }
  }

  /** The `memcpy` of `push_alert`. */
  method CopyPrefix(dst: array<char>, src: seq<char>, n: nat)
    requires n <= |src| && n <= dst.Length
    modifies dst
    ensures dst[..] == src[..n] + old(dst[n..])
  {
    var i := 0;
    while i < n
      invariant i <= n
      invariant dst[..i] == src[..i] && dst[i..] == old(dst[i..])
    {
      dst[i] := src[i];
      assert dst[..i + 1] == dst[..i] + [src[i]];
      i := i + 1;
    }
  }

  // ---------------------------------------------------------------------------
  // Properties.

  /** The timer never leaves [0, EXPIRY). */
  lemma NextTimerInRange(t: int)
    requires 0 <= t < EXPIRY
    ensures 0 <= NextTimer(t) < EXPIRY
  {
  }

  /** A pushed alert shows for exactly 299 frames: from timer 1 the timer
      counts up through 299 and is back at 0 on the 299th step. */
  lemma {:induction false} TimerCountsUp(t: int, k: nat)
    requires 1 <= t && t + k < EXPIRY
    ensures Ticks(t, k) == t + k
    decreases k
  {
    if k > 0 {
      TimerCountsUp(t + 1, k - 1);
    }
  }

  lemma AlertLifetime(k: nat)
    ensures k < EXPIRY - 1 ==> Ticks(1, k) == 1 + k && Ticks(1, k) > 0
    ensures Ticks(1, EXPIRY - 1) == 0
  {
    if k < EXPIRY - 1 {
      TimerCountsUp(1, k);
    }
    TimerCountsUp(1, EXPIRY - 2);
    TicksSplit(1, EXPIRY - 2, 1);
  }

  lemma {:induction false} TicksSplit(t: int, j: nat, k: nat)
    ensures Ticks(t, j + k) == Ticks(Ticks(t, j), k)
    decreases j
  {
    if j > 0 {
      TicksSplit(NextTimer(t), j - 1, k);
    }
  }

  /** An idle timer stays idle. */
  lemma {:induction false} IdleStaysIdle(k: nat)
    ensures Ticks(0, k) == 0
  {
    if k > 0 {
      IdleStaysIdle(k - 1);
    }
  }

  /** A message shorter than the buffer is shown exactly; a longer one fills
      the buffer with its first 256 characters and leaves no terminator. */
  lemma StoredMessage(buffer: seq<char>, msg: seq<char>)
    requires |buffer| == CAPACITY && NUL !in msg
    ensures |msg| < CAPACITY ==> NUL in Stored(buffer, msg) && CStr(Stored(buffer, msg)) == msg
    ensures |msg| >= CAPACITY ==> Stored(buffer, msg) == msg[..CAPACITY] && NUL !in Stored(buffer, msg)
  {
    var r := Stored(buffer, msg);
    if |msg| < CAPACITY {
      assert r[..|msg|] == msg && r[|msg|] == NUL;
      StrLenAt(r, |msg|);
    } else {
      assert r == msg[..CAPACITY];
    }
  }
}

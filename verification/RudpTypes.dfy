/** Constants, wire format and system-call outcomes of the RUDP transport (src/rudp/rudp.h). */
module RudpTypes {
  import opened Basics

  const N_ATTEMPT: nat := 3

  /** sizeof(struct rudp_header) on a 64-bit target; MAX_ANSWER is the same number. */
  const HEADER_SIZE: nat := 24

  const INADDR_ANY: nat := 0

  const RUDP_SOCKET := -2
  const RUDP_CLOSE := -4
  const RUDP_CALLOC := -9
  const RUDP_GETSOCKOPT := -10
  const RUDP_SETSOCKOPT := -11
  const RUDP_EXCEEDED_N_ATTEMPTS := -12
  const RUDP_CLOSE_CONNECTION := -14

  /** The values the flag byte takes. Data carries the flag of the control block, which nothing ever sets. */
  datatype Flag = NoFlag | Ack | Syn | SynAck | Fin

  datatype Datagram = Datagram(flag: Flag, seqno: nat, ackno: nat, payload: seq<Byte>)
  {
    function Size(): nat {
      HEADER_SIZE + |payload|
    }
  }

  datatype Address = Address(host: nat, port: nat)

  /** What one sendto reports: its return value, and whether errno equals EAGAIN afterwards.
      A datagram leaves the host exactly when the count is the full size. */
  datatype SendRet = SendRet(count: int, again: bool)

  /** What one recvfrom reports. */
  datatype RecvRet =
    | RecvFailed(again: bool)
    | Received(d: Datagram, from: Address)

  /** Whether the getsockopt, the first setsockopt and the closing setsockopt of a call succeed. */
  datatype Options = Options(getOk: bool, setOk: bool, restoreOk: bool)

  /** The outcomes of the system calls of one attempt of a retry loop: one send and one receive. */
  datatype Try = Try(sent: SendRet, got: RecvRet)

  /** The two counters of struct rudp_header. */
  datatype Counters = Counters(seqno: nat, ackno: nat)

  /** They stand for system calls that have not been made. */
  const UNSENT := SendRet(-1, false)
  const UNHEARD := RecvFailed(true)

  /** The outcomes of all attempts; those behind the recorded ones are never looked at. */
  function Padded<T>(tries: seq<T>, idle: T): (w: seq<T>)
    ensures |w| == N_ATTEMPT
    ensures |tries| <= N_ATTEMPT ==> w[..|tries|] == tries
  {
    if |tries| <= N_ATTEMPT then tries + seq(N_ATTEMPT - |tries|, _ => idle) else tries[..N_ATTEMPT]
  }

  /** The attempts that are made when k is the first that does not go round, or 3. */
  function Made<T>(tries: seq<T>, k: nat): seq<T> {
    if k < |tries| then tries[..k + 1] else tries
  }

  lemma {:induction false} MadeFrom<T>(tries: seq<T>, i: nat, k: nat)
    requires i < |tries| && i <= k <= |tries|
    ensures var made := Made(tries[i..], k - i);
            && made != [] && made[0] == tries[i] && made == [made[0]] + made[1..]
            && made[1..] == if i < k then Made(tries[i + 1..], k - i - 1) else []
    ensures i == k ==> Made(tries[i..], k - i) == [tries[i]]
    ensures i < k < |tries| ==> |Made(tries[i..], k - i)| > 1
  {
    var made := Made(tries[i..], k - i);
    if k < |tries| {
      assert made == tries[i..k + 1] && made[1..] == tries[i + 1..k + 1];
      if i < k { assert Made(tries[i + 1..], k - i - 1) == tries[i + 1..k + 1]; }
    } else {
      assert made[1..] == tries[i + 1..];
    }
  }
}

/** The configuration the RMI constructor settles on before it allocates
    anything: the ordinary receive-buffer size and the number of ordinary
    receive buffers, each either left at its default or read from the
    environment and then clamped. */
module Config {
  import opened Wire

  /** Round `n` up to the next multiple of ALIGNMENT. */
  function AlignUp(n: nat): (r: nat)
    ensures r % ALIGNMENT == 0
    ensures n <= r < n + ALIGNMENT
    ensures n % ALIGNMENT == 0 ==> r == n
  {
    var unaligned := n % ALIGNMENT;
    if unaligned != 0 then n + (ALIGNMENT - unaligned) else n
  }

  /** `max_msg_len_` after the constructor. `env` is the byte count the
      MAD_BUFFER_SIZE variable yields once its unit is applied and it is
      converted to an integer (`None` when the variable is not set). */
  function MaxMsgLen(env: Option<nat>): (r: nat)
    ensures r % ALIGNMENT == 0
    ensures r >= MIN_BUFFER_SIZE
    ensures env.None? ==> r == DEFAULT_MAX_MSG_LEN
    ensures env.Some? && env.value < MIN_BUFFER_SIZE ==> r == DEFAULT_MAX_MSG_LEN
    ensures env.Some? && env.value >= MIN_BUFFER_SIZE ==> env.value <= r < env.value + ALIGNMENT
  {
    match env
    case None => DEFAULT_MAX_MSG_LEN
    case Some(memory) =>
      var len := if memory < MIN_BUFFER_SIZE then DEFAULT_MAX_MSG_LEN else memory;
      AlignUp(len)
  }

  /** `nrecv_` after the constructor. `env` is the integer read from
      MAD_RECV_BUFFERS (`None` when the variable is not set). */
  function RecvBuffers(env: Option<int>): (r: int)
    ensures r >= DEFAULT_NRECV
    ensures env.Some? && env.value >= DEFAULT_NRECV ==> r == env.value
    ensures env.None? || env.value < DEFAULT_NRECV ==> r == DEFAULT_NRECV
  {
    match env
    case None => DEFAULT_NRECV
    case Some(n) => if n < DEFAULT_NRECV then DEFAULT_NRECV else n
  }
}

/** The message envelope carried through the queue. */
module Message {

  /** The topic key type of the integration (an `int` in the demo program). */
  type Key = int

  /** `x_mkey_t()`: the value-initialised key. */
  const DefaultKey: Key := 0

  /** One message argument (a `std::string` in the demo program). */
  type Arg = string

  /** `xmsg_context_t`: the topic key and the argument tuple; `mkey()` and
      `args()` are the two fields. */
  datatype Context = Context(mkey: Key, args: seq<Arg>)
}

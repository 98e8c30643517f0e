/** What the surroundings do to one command of an injector. */
module Environment {

  /**
   * `Normal` is the tool's own behaviour. The others are timeouts, start failures, odd exit statuses and
   * interrupts; the command may have had its effect all the same.
   */
  datatype Behaviour = Normal | Fails(effect: bool) | Interrupts(effect: bool)

  /** Whether the command does what it is for. */
  predicate Acts(b: Behaviour) {
    b == Normal || b.effect
  }
}

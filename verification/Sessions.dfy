/** The session states a publisher seat moves through. */
module Sessions {
  datatype SessionState = Unknown | Open | Armed | Active | Expiring | Closed

  /** States in which a session may still end. */
  predicate Live(s: SessionState) {
    s == Open || s == Armed || s == Active
  }

  /** States a new client may be seated in. */
  predicate Seatable(s: SessionState) {
    s == Unknown || s == Closed
  }
}

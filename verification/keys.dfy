/** The keys the motor panels' `keyPressEvent` handles (main.py, RPM.py,
    test/T2.py); any other key goes to the default handler and changes
    nothing in the model. A key press is an input of the model only when it
    reaches the panel's `keyPressEvent`: a focused child widget that takes
    the key itself (a focused button takes `Space` as its own click, the
    read-only log scrolls on it) handles it first. */
module Keys {
  datatype Key = Space | KeyR | KeyS | Up | Down | Other
}

/** The exit signal shared by the tray objects, the monitors and the
    minimize workflow (a `tokio::sync::Notify` on which only `notify_one` is
    called). */
module Signal {

  /** Counts the `notify_one` calls. */
  class ExitSignal {
    var notified: nat

    constructor ()
      ensures notified == 0
    {
      notified := 0;
    }

    method NotifyOne()
      modifies this
      ensures notified == old(notified) + 1
    {
      notified := notified + 1;
    }
  }
}

/** The one piece of configuration the core reads (src/config.rs). */
module Config {

  /** Where a restored window goes: the workspace the user is on, or the one
      it was minimized from. */
  datatype RestoreTarget = Active | Original

  /** `restore_to` when the configuration does not say. */
  const DefaultRestoreTarget: RestoreTarget := Active
}

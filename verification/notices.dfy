/** What a creator reports to the user once it is done. */
module Notices {
  import opened Text
  import opened FileSystem

  datatype Level = Information | Warning | Error

  datatype Notice =
    | ModulesCreated
    | SettingsUpdated
    | SettingsNotUpdated(error: FsError)
    | CreationFailed(error: FsError)
  {
    function Level(): Level {
      match this
      case ModulesCreated => Information
      case SettingsUpdated => Information
      case SettingsNotUpdated(_) => Warning
      case CreationFailed(_) => Error
    }

    /** The text shown; `message` is the message of the host's exception.
        The warning and the error end with that message. */
    function Text(message: string): (r: string)
      ensures Level() != Information ==> EndsWith(r, message)
    {
      match this
      case ModulesCreated => "Modules created successfully"
      case SettingsUpdated => "Added modules to settings.gradle.kts"
      case SettingsNotUpdated(_) => "Warning: Could not update " + "settings.gradle.kts: " + message
      case CreationFailed(_) => "Failed to create modules: " + message
    }
  }

  /** The four notices read differently whatever the messages: equal texts
      mean notices of the same kind. */
  lemma TextTellsNotice(a: Notice, b: Notice, m: string, n: string)
    requires a.Text(m) == b.Text(n)
    ensures a.Level() == b.Level()
    ensures a.ModulesCreated? <==> b.ModulesCreated?
  {
    FirstLetter(a, m);
    FirstLetter(b, n);
  }

  lemma FirstLetter(a: Notice, m: string)
    ensures a.ModulesCreated? ==> a.Text(m)[0] == 'M'
    ensures a.SettingsUpdated? ==> a.Text(m)[0] == 'A'
    ensures a.SettingsNotUpdated? ==> a.Text(m)[0] == 'W'
    ensures a.CreationFailed? ==> a.Text(m)[0] == 'F'
  {
  }

  /** The state a creator leaves behind and the notices it queued, in the
      order they are shown. */
  datatype Effect = Effect(fs: Fs, notices: seq<Notice>)
}

/** The keyed store both Settings classes keep (Classes/Services/Settings.php
    and Classes/Tools/Settings.class.php hold the same code) */
module SettingsStore {
  import opened Php

  /** get: the stored value when it is set, else null */
  function Read(settings: map<string, Value>, key: string): (r: Value)
    ensures key in settings ==> r == settings[key]
    ensures key !in settings ==> r == Null
  {
    if IsSet(settings, key) then settings[key] else Null
  }

  /** Reading after set(k, v) gives v under k and the old value elsewhere */
  lemma ReadAfterSet(settings: map<string, Value>, key: string, value: Value, other: string)
    requires other != key
    ensures Read(settings[key := value], key) == value
    ensures Read(settings[key := value], other) == Read(settings, other)
  {
  }
}

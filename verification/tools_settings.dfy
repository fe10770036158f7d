/** Classes/Tools/Settings.class.php */
module ToolsSettings {
  import opened Php
  import SettingsStore

  class Settings {
    var settings: map<string, Value>

    /** The store starts without defaults */
    constructor()
      ensures settings == map[]
    {
      settings := map[];
    }

    function Get(key: string): (r: Value)
      reads this
      ensures r == SettingsStore.Read(settings, key)
    {
      if IsSet(settings, key) then settings[key] else Null
    }

    function GetAll(): (r: map<string, Value>)
      reads this
      ensures r == settings
      ensures forall k :: k in r ==> Get(k) == r[k]
      ensures forall k :: k !in r ==> Get(k) == Null
    {
      settings
    }

    /** set: stores the value and returns what get gave before */
    method Set(key: string, value: Value) returns (oldValue: Value)
      modifies this
      ensures oldValue == SettingsStore.Read(old(settings), key)
      ensures settings == old(settings)[key := value]
      ensures Get(key) == value
    {
      oldValue := Get(key);
      settings := settings[key := value];
    }
  }
}

/** Classes/Session/Session.php: the key/value session store and the
    environment switch in front of it. `$_SESSION` is the `data` field; the
    TYPO3 session behind TYPO3Session is the `framework` field. */
module Sessions {
  import opened Php
  import Converter

  /** The three answers of detectEnvironment */
  datatype Environment = PhpAjax | Typo3 | PlainPhp

  /** detectEnvironment: VINOU_MODE (None when undefined) loosely in
      ['Ajax', 'cli'] wins over a defined TYPO3_MODE */
  function DetectEnvironment(vinouMode: Option<Value>, typo3Defined: bool): Environment
  {
    if vinouMode.Some? && (LooselyEquals(vinouMode.value, "Ajax") || LooselyEquals(vinouMode.value, "cli")) then PhpAjax
    else if typo3Defined then Typo3
    else PlainPhp
  }

  /** The mode strings select the Ajax environment whatever TYPO3_MODE says;
      the loose in_array also lets a `true` mode through */
  lemma DetectEnvironmentAjax(typo3Defined: bool)
    ensures DetectEnvironment(Some(Str("Ajax")), typo3Defined) == PhpAjax
    ensures DetectEnvironment(Some(Str("cli")), typo3Defined) == PhpAjax
    ensures DetectEnvironment(Some(Bool(true)), typo3Defined) == PhpAjax
  {
    assert LooselyEquals(Str("Ajax"), "Ajax");
    assert LooselyEquals(Str("cli"), "cli");
    assert LooselyEquals(Bool(true), "Ajax");
  }

  /** Any other mode string, or no mode, leaves TYPO3 when it is defined and
      plain PHP otherwise */
  lemma DetectEnvironmentOtherwise(typo3Defined: bool, mode: Option<string>)
    requires mode != Some("Ajax") && mode != Some("cli")
    ensures DetectEnvironment(if mode.Some? then Some(Str(mode.value)) else None, typo3Defined) ==
      (if typo3Defined then Typo3 else PlainPhp)
  {
    if mode.Some? {
      assert !LooselyEquals(Str(mode.value), "Ajax");
      assert !LooselyEquals(Str(mode.value), "cli");
    }
  }

  /** getValue outside TYPO3: the entry when it is set, else false */
  function Read(store: map<string, Value>, key: string): (r: Value)
  {
    if IsSet(store, key) then store[key] else Bool(false)
  }

  /** deleteValue outside TYPO3: unset only an entry that is set */
  function Remove(store: map<string, Value>, key: string): map<string, Value>
  {
    if IsSet(store, key) then store - {key} else store
  }

  /** Reading a key back after writing a non-null value gives that value;
      writing leaves every other key as it was, and writing null hides the key */
  lemma ReadAfterWrite(store: map<string, Value>, key: string, value: Value, other: string)
    requires other != key
    ensures value != Null ==> Read(store[key := value], key) == value
    ensures value == Null ==> Read(store[key := value], key) == Bool(false)
    ensures Read(store[key := value], other) == Read(store, other)
  {
  }

  /** After a delete the key reads as false, and the other keys are untouched;
      a stored null is not unset */
  lemma ReadAfterRemove(store: map<string, Value>, key: string, other: string)
    requires other != key
    ensures Read(Remove(store, key), key) == Bool(false)
    ensures Read(Remove(store, key), other) == Read(store, other)
    ensures key in store && store[key] == Null ==> Remove(store, key) == store
    ensures Remove(store, key).Keys == if IsSet(store, key) then store.Keys - {key} else store.Keys
  {
  }

  /** A read of the TYPO3 session store; TYPO3Session is not part of this
      model, and a missing entry is taken to read as null */
  function FrameworkRead(framework: map<string, Value>, key: string): Value
  {
    if key in framework then framework[key] else Null
  }

  class Session {
    const env: Environment
    var data: map<string, Value>
    var framework: map<string, Value>

    constructor(env: Environment, data: map<string, Value>, framework: map<string, Value>)
      ensures this.env == env && this.data == data && this.framework == framework
    {
      this.env := env;
      this.data := data;
      this.framework := framework;
    }

    function GetValue(key: string): (r: Value)
      reads this
      ensures env == Typo3 ==> r == FrameworkRead(framework, key)
      ensures env != Typo3 ==> r == Read(data, key)
    {
      if env == Typo3 then FrameworkRead(framework, key)
      else if IsSet(data, key) then data[key]
      else Bool(false)
    }

    /** setValue: stores the value in the store of the environment; outside
        TYPO3 it reports true */
    method SetValue(key: string, value: Value) returns (ok: bool)
      modifies this
      ensures env == Typo3 ==> framework == old(framework)[key := value] && data == old(data)
      ensures env != Typo3 ==> data == old(data)[key := value] && framework == old(framework) && ok
    {
      if env == Typo3 {
        framework := framework[key := value];
        ok := true;
        return;
      }
      data := data[key := value];
      ok := true;
    }

    /** deleteValue: always reports true */
    method DeleteValue(key: string) returns (ok: bool)
      modifies this
      ensures ok
      ensures env == Typo3 ==> framework == old(framework) - {key} && data == old(data)
      ensures env != Typo3 ==> data == Remove(old(data), key) && framework == old(framework)
    {
      if env == Typo3 {
        framework := framework - {key};
      } else if IsSet(data, key) {
        data := data - {key};
      }
      ok := true;
    }

    /** start: a session without an id gets a fresh random id (written to
        $_SESSION directly) and a start stamp (written through setValue);
        `rand` stands for mt_rand and `stamp` for the formatted clock */
    method Start(rand: (nat, int, int) -> int, stamp: string)
      requires forall k: nat, lo: int, hi: int :: lo <= hi ==> lo <= rand(k, lo, hi) <= hi
      modifies this
      ensures IsSet(old(data), "id") ==> data == old(data) && framework == old(framework)
      ensures !IsSet(old(data), "id") ==>
        "id" in data && data["id"].Str? && |data["id"].s| == Converter.DefaultLength &&
        (forall i :: 0 <= i < |data["id"].s| ==>
           IsDigit(data["id"].s[i]) || IsLowerAscii(data["id"].s[i]) || IsUpperAscii(data["id"].s[i]))
      ensures !IsSet(old(data), "id") && env != Typo3 ==>
        data == old(data)["id" := data["id"]]["start" := Str(stamp)] && framework == old(framework)
      ensures !IsSet(old(data), "id") && env == Typo3 ==>
        data == old(data)["id" := data["id"]] && framework == old(framework)["start" := Str(stamp)]
    {
      if !IsSet(data, "id") {
        var id := Converter.GenerateRandomString(Converter.DefaultLength, Converter.DefaultCharmode,
          Converter.DefaultNumbers, Converter.DefaultSpecialChars, Converter.DefaultUnmistakable, rand);
        Converter.DefaultCharset();
        var s := id.value;
        data := data["id" := Str(s)];
        var _ := SetValue("start", Str(stamp));
      }
    }
  }
}

/** Classes/Services/ServiceLocator.php: a registry of named services, each
    built on first use and then shared. Reflection becomes a `Service`
    object made from the class name and the constructor arguments; the
    dependency callbacks are named by `Callback` and run by the `invoke`
    parameter. */
module Services {
  import opened Php

  /** A dependencies callable, known by an identity */
  datatype Callback = Callback(id: nat)

  /** An object built by the locator */
  class Service {
    const cls: string
    const args: seq<Value>

    constructor(cls: string, args: seq<Value>)
      ensures this.cls == cls && this.args == args
    {
      this.cls := cls;
      this.args := args;
    }
  }

  /** An entry of the static $services array: a registration not built yet,
      a built instance, or the null the by-reference read of a missing name
      leaves behind */
  datatype Entry = Registered(cls: string, dependencies: Option<Callback>) | Built(service: Service) | Unset

  const SettingsClass := "Vinou\\ApiConnector\\Services\\Settings"
  const TranslatorClass := "Vinou\\Translations\\Utilities\\Translation"

  class ServiceLocator {
    var services: map<string, Entry>
    /** The callbacks run so far, in order */
    ghost var calls: seq<Callback>

    /** The registry as the file leaves it when loaded: Settings and
        Translator registered without dependencies */
    constructor()
      ensures services == map["Settings" := Registered(SettingsClass, None), "Translator" := Registered(TranslatorClass, None)]
      ensures calls == []
    {
      services := map[];
      calls := [];
      new;
      Register("Settings", SettingsClass, None);
      Register("Translator", TranslatorClass, None);
    }

    /** register: the name now maps to the class and its callback, whatever
        it held before, a built instance included */
    method Register(name: string, cls: string, dependencies: Option<Callback>)
      modifies this
      ensures services == old(services)[name := Registered(cls, dependencies)]
      ensures calls == old(calls)
    {
      services := services[name := Registered(cls, dependencies)];
    }

    /** get: a registered name is built now, with the callback's result as
        constructor arguments (none without a callback), and replaced by the
        instance; a built name returns its instance; a missing name is left
        holding null and yields null */
    method Get(name: string, invoke: Callback -> seq<Value>) returns (r: Option<Service>)
      modifies this
      ensures forall other :: other != name ==>
        (other in services <==> other in old(services)) &&
        (other in services ==> services[other] == old(services)[other])
      ensures name !in old(services) ==> r.None? && services == old(services)[name := Unset] && calls == old(calls)
      ensures name in old(services) && old(services)[name].Unset? ==> r.None? && services == old(services) && calls == old(calls)
      ensures name in old(services) && old(services)[name].Built? ==>
        r == Some(old(services)[name].service) && services == old(services) && calls == old(calls)
      ensures name in old(services) && old(services)[name].Registered? ==>
        var e := old(services)[name];
        r.Some? && fresh(r.value) && r.value.cls == e.cls &&
        r.value.args == (if e.dependencies.Some? then invoke(e.dependencies.value) else []) &&
        services == old(services)[name := Built(r.value)] &&
        calls == old(calls) + (if e.dependencies.Some? then [e.dependencies.value] else [])
    {
      if name !in services {
        services := services[name := Unset];
        return None;
      }
      match services[name]
      case Registered(cls, dependencies) =>
        var args := if dependencies.Some? then invoke(dependencies.value) else [];
        if dependencies.Some? {
          calls := calls + [dependencies.value];
        }
        var service := new Service(cls, args);
        services := services[name := Built(service)];
        r := Some(service);
      case Built(service) =>
        r := Some(service);
      case Unset =>
        r := None;
    }
  }

  /** Two gets in a row build at most once: the second returns the instance
      of the first and runs no callback */
  method GetTwice(locator: ServiceLocator, name: string, invoke: Callback -> seq<Value>)
    returns (first: Option<Service>, second: Option<Service>)
    modifies locator
    ensures second == first
    ensures |locator.calls| <= |old(locator.calls)| + 1
  {
    first := locator.Get(name, invoke);
    second := locator.Get(name, invoke);
  }
}

// The module singleton (RePiModule.h): one instance per module type,
// created by StartUp and destroyed by ShutDown.  The two statics of the
// template (the instance pointer and the shut-down flag) are the fields of
// one Module object.

module Singleton {
  import opened Base

  class Module<T> {
    /** _Instance(): the live instance, None for a null pointer. */
    var instance: Option<T>
    /** IsShutDown(): true until StartUp, and again after ShutDown. */
    var shutDown: bool

    /** The instance exists exactly while the module is started. */
    predicate Valid()
      reads this
    {
      shutDown <==> instance.None?
    }

    /** The statics' initial values: shut down, no instance. */
    constructor()
      ensures Valid() && !IsReady() && instance.None?
    {
      instance := None;
      shutDown := true;
    }

    function IsReady(): (r: bool)
      reads this
      requires Valid()
      ensures r <==> instance.Some?
    {
      !shutDown
    }

    /**
     * Instance: the live instance; a fatal error while shut down.  The
     * error carries no value, so the result is None exactly then.
     */
    function Instance(): (r: Option<T>)
      reads this
      requires Valid()
      ensures r.None? <==> !IsReady()
      ensures IsReady() ==> r == instance
    {
      if shutDown then None else instance
    }

    /**
     * StartUp: false and no change when already started; otherwise the
     * new instance is installed, the module is started, and the callback
     * runs when there is one (calledBack).
     */
    method StartUp(created: T, hasCallback: bool) returns (ok: bool, calledBack: bool)
      requires Valid()
      modifies this
      ensures Valid()
      ensures old(IsReady()) ==> !ok && !calledBack && instance == old(instance) && shutDown == old(shutDown)
      ensures !old(IsReady()) ==> ok && IsReady() && instance == Some(created) && calledBack == hasCallback
    {
      if !shutDown {
        return false, false;
      }
      instance := Some(created);
      shutDown := false;
      calledBack := hasCallback;
      ok := true;
    }

    /**
     * ShutDown: a fatal error, before any change, when already shut down;
     * otherwise the module is shut down and the instance deleted (its
     * destructor nulls the pointer).
     */
    method ShutDown() returns (o: Outcome)
      requires Valid()
      modifies this
      ensures Valid()
      ensures !old(IsReady()) ==> o.Fatal? && instance == old(instance) && shutDown == old(shutDown)
      ensures old(IsReady()) ==> o == Done && !IsReady() && instance.None?
    {
      if shutDown {
        return Fatal("The module has already been shut down");
      }
      shutDown := true;
      instance := None;
      o := Done;
    }
  }
}

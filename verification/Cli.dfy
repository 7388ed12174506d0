/** Name filters given on the command line. */
module Cli {
  import opened Wrappers

  /** Is `name` wanted by a filter? No filter wants everything. */
  predicate WantsName(names: Option<set<string>>, name: string) {
    names.None? || name in names.value
  }

  function Consume(names: Option<set<string>>, name: string): Option<set<string>> {
    if names.None? then None else Some(names.value - {name})
  }

  class FilterNames {
    var names: Option<set<string>>

    constructor ()
      ensures names == None
    {
      names := None;
    }

    method Push(name: string)
      modifies this
      ensures names == Some((if old(names).None? then {} else old(names).value) + {name})
    {
      names := Some((if names.None? then {} else names.value) + {name});
    }

    /** Consumes `name`: a second call for the same name answers false, if there is a filter. */
    method Wants(name: string) returns (wanted: bool)
      modifies this
      ensures wanted <==> WantsName(old(names), name)
      ensures names == Consume(old(names), name)
    {
      if names.Some? {
        wanted := name in names.value;
        names := Some(names.value - {name});
      } else {
        wanted := true;
      }
    }

    /** Some name that was asked for and not consumed, if there is one. */
    method NextMissing() returns (missing: Option<string>)
      ensures missing.None? <==> names.None? || names.value == {}
      ensures missing.Some? ==> missing.value in names.value
    {
      if names.None? || names.value == {} {
        return None;
      }
      var name :| name in names.value;
      return Some(name);
    }
  }
}

/** The record set change actions and the strings that stand for them. */
module Actions {
  import opened Wrappers

  /** A string-valued enumeration: each action is represented by its value. */
  datatype RecordSetChangeAction = Create | Delete | Upsert
  {
    /** The string an action stands for in a change batch and in an event. */
    function Value(): string
    {
      match this
      case Create => "CREATE"
      case Delete => "DELETE"
      case Upsert => "UPSERT"
    }
  }

  /** Looks up the action whose value is `s`, as `RecordSetChangeAction(s)` does. */
  function FromValue(s: string): (r: Option<RecordSetChangeAction>)
    ensures r.Some? ==> r.value.Value() == s
    ensures r.None? ==> forall a: RecordSetChangeAction :: a.Value() != s
  {
    if s == "CREATE" then Some(Create)
    else if s == "DELETE" then Some(Delete)
    else if s == "UPSERT" then Some(Upsert)
    else None
  }

  /** Every action is found again from its value, so no two actions share one. */
  lemma FromValueOfValue(a: RecordSetChangeAction)
    ensures FromValue(a.Value()) == Some(a)
  {
  }
}

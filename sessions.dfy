/**
  The per-customer session records (server.js:60-65): a pending custom-card capture
  and a pending form, keyed by the sender's id. Setters merge into the record the
  sender already has (or an empty one); nothing ever removes a record.
 */
module Sessions {
  import opened Options
  import Forms

  /** A session record; an `awaitingCard` the source never set reads as false. */
  datatype Session = Session(awaitingCard: bool, form: Option<Forms.Form>)

  type Store = map<string, Session>

  /** `session.get(from) || {}`. */
  function Lookup(m: Store, from: string): (s: Session)
    ensures from !in m ==> s == Session(false, None)
    ensures from in m ==> s == m[from]
  {
    if from in m then m[from] else Session(false, None)
  }

  /** `isAwaitingCard(from)`. */
  predicate AwaitingCard(m: Store, from: string) {
    Lookup(m, from).awaitingCard
  }

  /** `getForm(from)`. */
  function FormOf(m: Store, from: string): Option<Forms.Form> {
    Lookup(m, from).form
  }

  /**
    `setAwaitingCard(from, value)`: the sender's record exists afterwards with the new
    flag and its form as before; every other sender's record is untouched.
   */
  function WithAwaitingCard(m: Store, from: string, value: bool): (r: Store)
    ensures r.Keys == m.Keys + {from}
    ensures AwaitingCard(r, from) == value && FormOf(r, from) == FormOf(m, from)
    ensures forall k :: k in m && k != from ==> r[k] == m[k]
  {
    m[from := Lookup(m, from).(awaitingCard := value)]
  }

  /**
    `setForm(from, f)`: the sender's record exists afterwards with the new form and
    its card flag as before; every other sender's record is untouched.
   */
  function WithForm(m: Store, from: string, f: Forms.Form): (r: Store)
    ensures r.Keys == m.Keys + {from}
    ensures FormOf(r, from) == Some(f) && AwaitingCard(r, from) == AwaitingCard(m, from)
    ensures forall k :: k in m && k != from ==> r[k] == m[k]
  {
    m[from := Lookup(m, from).(form := Some(f))]
  }

  /**
    `clearForm(from)`: only the form goes; the card flag stays, the record is stored
    even if it was absent, and every other sender's record is untouched.
   */
  function WithoutForm(m: Store, from: string): (r: Store)
    ensures r.Keys == m.Keys + {from}
    ensures FormOf(r, from) == None && AwaitingCard(r, from) == AwaitingCard(m, from)
    ensures forall k :: k in m && k != from ==> r[k] == m[k]
  {
    m[from := Lookup(m, from).(form := None)]
  }

  /** Every stored form still has a field to ask for. */
  predicate Valid(m: Store) {
    forall k :: k in m && m[k].form.Some? ==> Forms.Pending(m[k].form.value)
  }

  /** The setters keep every stored form pending, given that a new form is. */
  lemma SettersKeepValid(m: Store, from: string, value: bool, f: Forms.Form)
    requires Valid(m)
    ensures Valid(WithAwaitingCard(m, from, value))
    ensures Valid(WithoutForm(m, from))
    ensures Forms.Pending(f) ==> Valid(WithForm(m, from, f))
  {
  }
}

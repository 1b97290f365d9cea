/** sevenguis_core/src/crud_page.rs: a list of people that can be filtered by
    last-name prefix, with a form to create, rename and delete entries.

    Ids are unbounded here; `next_id` is a `u32` in the source. */
module CrudPage {
  import opened Polyester
  import opened RustStd

  datatype Person = Person(id: nat, firstName: string, lastName: string)

  datatype Form = Form(firstName: string, lastName: string)

  /** `Form::empty`: both names blank. */
  function EmptyForm(): (f: Form)
    ensures f.firstName == [] && f.lastName == []
  {
    Form("", "")
  }

  /** The three people the page starts with. */
  const InitialPeople := [
    Person(1, "Hans", "Emil"),
    Person(2, "Max", "Mustermann"),
    Person(3, "Roman", "Tisch")]

  /** The ids the page hands out: `nextId` is at least 1, every id is at least 1
      and below `nextId`, and no two people share one. In particular no person
      has id 0. */
  predicate ValidIds(people: seq<Person>, nextId: nat)
  {
    1 <= nextId
    && (forall i :: 0 <= i < |people| ==> 1 <= people[i].id < nextId)
    && (forall i, j :: 0 <= i < j < |people| ==> people[i].id != people[j].id)
  }

  /** Under the id invariant every person's id is one the page has handed out,
      and an id names at most one person. */
  lemma ValidIdsUnique(people: seq<Person>, nextId: nat, p: Person, q: Person)
    requires ValidIds(people, nextId)
    requires p in people && q in people
    ensures 1 <= p.id < nextId
    ensures p.id == q.id ==> p == q
  {
    var i :| 0 <= i < |people| && people[i] == p;
    var j :| 0 <= j < |people| && people[j] == q;
    if p.id == q.id {
      assert !(i < j) && !(j < i);
    }
  }

  /** The elements of `s` that `keep` accepts, in their order in `s`: Rust's
      `retain` and `iter().filter().collect()`. */
  function Filter<T>(s: seq<T>, keep: T -> bool): (r: seq<T>)
    ensures |r| <= |s|
    ensures forall x :: x in r ==> x in s && keep(x)
    decreases |s|
  {
    if s == [] then []
    else
      var init := s[..|s| - 1];
      assert forall x :: x in init ==> x in s;
      Filter(init, keep) + (if keep(s[|s| - 1]) then [s[|s| - 1]] else [])
  }

  /** Filtering drops exactly the elements `keep` rejects. */
  lemma {:induction false} FilterMembership<T>(s: seq<T>, keep: T -> bool, x: T)
    ensures x in Filter(s, keep) <==> x in s && keep(x)
    decreases |s|
  {
    if s != [] {
      var init := s[..|s| - 1];
      assert s == init + [s[|s| - 1]];
      FilterMembership(init, keep, x);
    }
  }

  /** Filtering keeps the order: it distributes over concatenation. */
  lemma {:induction false} FilterAppend<T>(a: seq<T>, b: seq<T>, keep: T -> bool)
    ensures Filter(a + b, keep) == Filter(a, keep) + Filter(b, keep)
    decreases |b|
  {
    if b == [] {
      assert a + b == a;
    } else {
      var init := b[..|b| - 1];
      assert (a + b)[..|a + b| - 1] == a + init;
      FilterAppend(a, init, keep);
    }
  }

  /** A filter that accepts everything changes nothing. */
  lemma {:induction false} FilterKeepsAll<T>(s: seq<T>, keep: T -> bool)
    requires forall x :: x in s ==> keep(x)
    ensures Filter(s, keep) == s
    decreases |s|
  {
    if s != [] {
      var init := s[..|s| - 1];
      assert s == init + [s[|s| - 1]];
      FilterKeepsAll(init, keep);
    }
  }

  /** Removing people keeps the ids valid. */
  lemma {:induction false} FilterKeepsValidIds(people: seq<Person>, nextId: nat, keep: Person -> bool)
    requires ValidIds(people, nextId)
    ensures ValidIds(Filter(people, keep), nextId)
    decreases |people|
  {
    if people != [] {
      var init := people[..|people| - 1];
      var last := people[|people| - 1];
      assert ValidIds(init, nextId);
      FilterKeepsValidIds(init, nextId, keep);
      var kept := Filter(init, keep);
      forall i | 0 <= i < |kept|
        ensures 1 <= kept[i].id < nextId && kept[i].id != last.id
      {
        KeptIsEarlier(people, kept[i]);
      }
      assert Filter(people, keep) == kept + (if keep(last) then [last] else []);
    }
  }

  /** An element of all but the last person lies at an earlier index. */
  lemma KeptIsEarlier(people: seq<Person>, p: Person)
    requires people != [] && p in people[..|people| - 1]
    ensures exists k :: 0 <= k < |people| - 1 && people[k] == p
  {
    var k :| 0 <= k < |people| - 1 && people[..|people| - 1][k] == p;
    assert people[k] == p;
  }

  /** `people.retain(|p| p.id != id)`. */
  function Without(people: seq<Person>, id: nat): (r: seq<Person>)
    ensures |r| <= |people|
    ensures forall p :: p in r ==> p in people && p.id != id
  {
    Filter(people, (p: Person) => p.id != id)
  }

  /** After `Delete`, nobody has the deleted id, and everybody else is still there. */
  lemma WithoutMembership(people: seq<Person>, id: nat, p: Person)
    ensures p in Without(people, id) <==> p in people && p.id != id
  {
    FilterMembership(people, (q: Person) => q.id != id, p);
  }

  /** `people.retain(|p| p.id != id)`, one element at a time. */
  method Retain(people: seq<Person>, id: nat) returns (kept: seq<Person>)
    ensures kept == Without(people, id)
  {
    kept := [];
    var i := 0;
    while i < |people|
      invariant 0 <= i <= |people|
      invariant kept == Without(people[..i], id)
    {
      assert people[..i + 1][..i] == people[..i];
      if people[i].id != id {
        kept := kept + [people[i]];
      }
      i := i + 1;
    }
    assert people[..i] == people;
  }

  /** `Delete` keeps the ids valid. */
  lemma WithoutKeepsValidIds(people: seq<Person>, nextId: nat, id: nat)
    requires ValidIds(people, nextId)
    ensures ValidIds(Without(people, id), nextId)
  {
    FilterKeepsValidIds(people, nextId, (p: Person) => p.id != id);
  }

  /** The index of the first person with the given id:
      `people.iter_mut().find(|person| person.id == id)`. */
  function FindPerson(people: seq<Person>, id: nat): (r: Option<nat>)
    ensures r.Some? ==>
      r.value < |people| && people[r.value].id == id
      && forall j :: 0 <= j < r.value ==> people[j].id != id
    ensures r.None? ==> forall j :: 0 <= j < |people| ==> people[j].id != id
    decreases |people|
  {
    if people == [] then None
    else if people[0].id == id then Some(0)
    else
      match FindPerson(people[1..], id)
      case None => None
      case Some(i) => Some(i + 1)
  }

  /** Under the id invariant the selection sentinel 0 names nobody. */
  lemma NoPersonHasIdZero(people: seq<Person>, nextId: nat)
    requires ValidIds(people, nextId)
    ensures FindPerson(people, 0).None?
  {
  }

  /** The filter predicate of `view_body`: an empty filter shows everybody,
      otherwise the lower-cased last name must start with the filter. */
  function IsShown(p: Person, filter: string): (shown: bool)
    ensures shown <==>
      filter == []
      || (|filter| <= |p.lastName| && forall i :: 0 <= i < |filter| ==> LowerChar(p.lastName[i]) == filter[i])
  {
    filter == [] || StartsWith(ToLowercase(p.lastName), filter)
  }

  /** The people the list shows, in their order in the model. */
  function Shown(people: seq<Person>, filter: string): (r: seq<Person>)
    ensures |r| <= |people|
    ensures forall p :: p in r ==> p in people && IsShown(p, filter)
  {
    Filter(people, (p: Person) => IsShown(p, filter))
  }

  /** The list shows exactly the people that pass the filter. */
  lemma ShownMembership(people: seq<Person>, filter: string, p: Person)
    ensures p in Shown(people, filter) <==> p in people && IsShown(p, filter)
  {
    FilterMembership(people, (q: Person) => IsShown(q, filter), p);
  }

  /** An empty filter shows the whole list. */
  lemma ShownWithEmptyFilter(people: seq<Person>)
    ensures Shown(people, "") == people
  {
    FilterKeepsAll(people, (p: Person) => IsShown(p, ""));
  }

  /** Appending a person to the list appends it to what is shown, when it passes. */
  lemma ShownSnoc(people: seq<Person>, p: Person, filter: string)
    ensures Shown(people + [p], filter) == Shown(people, filter) + (if IsShown(p, filter) then [p] else [])
  {
  }

  /** The filter on a list of three, the middle one passing. */
  lemma ShownMiddleOfThree(a: Person, b: Person, c: Person, filter: string)
    requires !IsShown(a, filter) && IsShown(b, filter) && !IsShown(c, filter)
    ensures Shown([a, b, c], filter) == [b]
  {
    assert Shown([], filter) == [];
    ShownSnoc([], a, filter);
    assert [] + [a] == [a];
    ShownSnoc([a], b, filter);
    assert [a] + [b] == [a, b];
    ShownSnoc([a, b], c, filter);
    assert [a, b] + [c] == [a, b, c];
  }

  /** Of the seed last names, only "Mustermann" starts with "mu" once lower-cased. */
  lemma SeedLastNamesMu()
    ensures !IsShown(Person(1, "Hans", "Emil"), "mu")
    ensures IsShown(Person(2, "Max", "Mustermann"), "mu")
    ensures !IsShown(Person(3, "Roman", "Tisch"), "mu")
  {
    assert ToLowercase("Emil")[0] == 'e';
    var l := ToLowercase("Mustermann");
    assert l[0] == 'm' && l[1] == 'u';
    assert l[..2] == "mu";
    assert ToLowercase("Tisch")[0] == 't';
  }

  /** With the seed list, the filter "mu" shows Mustermann only. */
  lemma ShownSeedMu()
    ensures Shown(InitialPeople, "mu") == [Person(2, "Max", "Mustermann")]
  {
    SeedLastNamesMu();
    ShownMiddleOfThree(Person(1, "Hans", "Emil"), Person(2, "Max", "Mustermann"), Person(3, "Roman", "Tisch"), "mu");
  }

  datatype Msg =
    | FilterChanged(text: string)
    | SelectedPersonChanged(value: Value)
    | FirstNameChanged(text: string)
    | LastNameChanged(text: string)
    | Create
    | Update
    | Delete

  const FilterId := DomId("filter")
  const FirstNameId := DomId("first-name")
  const LastNameId := DomId("last-name")
  const PeopleId := DomId("people")
  const CreateId := DomId("create")
  const UpdateId := DomId("update")
  const DeleteId := DomId("delete")

  const SelectedPersonError := "Failed to parse selected person"

  /** `crud_page::Model`. */
  class Model {
    var nextId: nat
    var selectedId: nat
    var people: seq<Person>
    var form: Form
    var filter: string

    ghost predicate Valid()
      reads this
    {
      ValidIds(people, nextId)
    }

    /** `CrudPage::init`. */
    constructor Init()
      ensures nextId == 4 && selectedId == 1 && people == InitialPeople
      ensures form == EmptyForm() && filter == ""
      ensures Valid()
    {
      nextId := 4;
      selectedId := 1;
      people := InitialPeople;
      form := EmptyForm();
      filter := "";
    }

    /** `CrudPage::update`. `asU32` is the host's `Value::parse::<u32>`; the text
        payloads are already strings, so only `SelectedPersonChanged` can fail,
        and then nothing changes. Every message keeps the ids valid; none
        requests effects. */
    method Update(msg: Msg, asU32: Value -> Option<u32>) returns (r: Outcome)
      modifies this
      ensures old(Valid()) ==> Valid()
      ensures r == (if msg.SelectedPersonChanged? && asU32(msg.value).None? then Err(SelectedPersonError) else Ok([]))
      ensures match msg
        case FilterChanged(text) =>
          filter == ToLowercase(text)
          && nextId == old(nextId) && selectedId == old(selectedId) && people == old(people) && form == old(form)
        case SelectedPersonChanged(value) =>
          selectedId == (match asU32(value) case Some(id) => id case None => old(selectedId))
          && nextId == old(nextId) && people == old(people) && form == old(form) && filter == old(filter)
        case FirstNameChanged(text) =>
          form == old(form).(firstName := text)
          && nextId == old(nextId) && selectedId == old(selectedId) && people == old(people) && filter == old(filter)
        case LastNameChanged(text) =>
          form == old(form).(lastName := text)
          && nextId == old(nextId) && selectedId == old(selectedId) && people == old(people) && filter == old(filter)
        case Create =>
          people == old(people) + [Person(old(nextId), old(form).firstName, old(form).lastName)]
          && selectedId == old(nextId) && nextId == old(nextId) + 1
          && form == EmptyForm() && filter == old(filter)
        case Update =>
          (match FindPerson(old(people), old(selectedId))
           case None => people == old(people)
           case Some(i) =>
             people == old(people)[i := old(people)[i].(firstName := old(form).firstName, lastName := old(form).lastName)])
          && form == EmptyForm()
          && nextId == old(nextId) && selectedId == old(selectedId) && filter == old(filter)
        case Delete =>
          people == Without(old(people), old(selectedId))
          && selectedId == (if people == [] then 0 else people[0].id)
          && nextId == old(nextId) && form == old(form) && filter == old(filter)
      ensures msg.Delete? ==> forall p :: p in people ==> p.id != old(selectedId)
      ensures msg.Delete? ==> forall p :: p in old(people) && p.id != old(selectedId) ==> p in people
      ensures msg.Delete? && Valid() ==> (selectedId == 0 <==> people == [])
    {
      match msg {
        case FilterChanged(text) =>
          filter := ToLowercase(text);
        case SelectedPersonChanged(value) =>
          match asU32(value) {
            case None =>
              r := Err(SelectedPersonError);
              return;
            case Some(id) =>
              selectedId := id;
          }
        case FirstNameChanged(text) =>
          form := form.(firstName := text);
        case LastNameChanged(text) =>
          form := form.(lastName := text);
        case Create =>
          people := people + [Person(nextId, form.firstName, form.lastName)];
          form := EmptyForm();
          selectedId := nextId;
          nextId := nextId + 1;
        case Update =>
          var i := 0;
          while i < |people| && people[i].id != selectedId
            invariant 0 <= i <= |people|
            invariant forall j :: 0 <= j < i ==> people[j].id != selectedId
          {
            i := i + 1;
          }
          if i < |people| {
            people := people[i := people[i].(firstName := form.firstName, lastName := form.lastName)];
          }
          form := EmptyForm();
        case Delete =>
          var kept := Retain(people, selectedId);
          ghost var removed := selectedId;
          forall p | p in old(people)
            ensures p in kept <==> p.id != removed
          {
            WithoutMembership(old(people), removed, p);
          }
          if old(Valid()) {
            WithoutKeepsValidIds(people, nextId, removed);
          }
          people := kept;
          selectedId := if |people| > 0 then people[0].id else 0;
      }
      r := Ok([]);
    }

    /** `CrudPage::subscriptions`: the same seven listeners for every model. */
    function Subscriptions(): (subs: seq<Subscription<Msg>>)
      ensures |subs| == 7
      ensures IsInput(subs[0], FilterId, t => FilterChanged(t))
      ensures IsInput(subs[1], FirstNameId, t => FirstNameChanged(t))
      ensures IsInput(subs[2], LastNameId, t => LastNameChanged(t))
      ensures IsChange(subs[3], PeopleId, v => SelectedPersonChanged(v))
      ensures IsClick(subs[4], CreateId, Create)
      ensures IsClick(subs[5], UpdateId, Msg.Update)
      ensures IsClick(subs[6], DeleteId, Delete)
    {
      [ OnInput(FilterId, t => FilterChanged(t)),
        OnInput(FirstNameId, t => FirstNameChanged(t)),
        OnInput(LastNameId, t => LastNameChanged(t)),
        OnChange(PeopleId, v => SelectedPersonChanged(v)),
        OnClick(CreateId, Create),
        OnClick(UpdateId, Msg.Update),
        OnClick(DeleteId, Delete) ]
    }
  }

  /** A client run: the form fills a new person, who gets the next id and the
      selection. */
  method SessionCreate(asU32: Value -> Option<u32>)
  {
    var m := new Model.Init();
    var r := m.Update(FirstNameChanged("Ann"), asU32);
    r := m.Update(LastNameChanged("Zed"), asU32);
    r := m.Update(Create, asU32);
    assert m.people == InitialPeople + [Person(4, "Ann", "Zed")];
    assert m.selectedId == 4 && m.nextId == 5 && m.form == EmptyForm();
  }

  /** A client run: renaming the selected person, then deleting them selects
      the first person left. */
  method SessionRenameDelete(asU32: Value -> Option<u32>)
  {
    var m := new Model.Init();
    var r := m.Update(FirstNameChanged("Max"), asU32);
    r := m.Update(LastNameChanged("Muster"), asU32);
    assert m.people[0].id == 1;
    assert FindPerson(m.people, 1) == Some(0);
    r := m.Update(Msg.Update, asU32);
    assert m.people[0] == Person(1, "Max", "Muster") && m.form == EmptyForm();
    r := m.Update(Delete, asU32);
    assert Person(1, "Max", "Muster") !in m.people;
    assert m.Valid() && m.people != [] && m.selectedId == m.people[0].id;
  }
}

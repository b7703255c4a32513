/** `EventArgs`: the open bag of named fields attached to one emission. */
module EventArgs {
  import opened Wrappers
  import Regex

  /** A field value: the triggering output line, the groups captured by an
      output filter, or any other object a handler stores. */
  datatype Value = Text(s: string) | Groups(m: Regex.Match) | Opaque(id: nat)

  type Args = map<string, Value>

  /** Python keyword arguments never repeat a name. */
  predicate DistinctNames(fields: seq<(string, Value)>) {
    forall i, j :: 0 <= i < j < |fields| ==> fields[i].0 != fields[j].0
  }

  function Names(fields: seq<(string, Value)>): set<string> {
    set i | 0 <= i < |fields| :: fields[i].0
  }

  /** `args.add(**fields)`: sets or overwrites each given field and leaves
      every other field as it was. */
  function Add(args: Args, fields: seq<(string, Value)>): (r: Args)
    requires DistinctNames(fields)
    ensures r.Keys == args.Keys + Names(fields)
    ensures forall i :: 0 <= i < |fields| ==> r[fields[i].0] == fields[i].1
    ensures forall k :: k in args && k !in Names(fields) ==> r[k] == args[k]
    decreases |fields|
  {
    if |fields| == 0 then args
    else
      var r := Add(args[fields[0].0 := fields[0].1], fields[1..]);
      assert Names(fields) == {fields[0].0} + Names(fields[1..]);
      r
  }

  /** Adding a single field is a map update. */
  lemma AddOne(args: Args, name: string, v: Value)
    ensures Add(args, [(name, v)]) == args[name := v]
  {
    assert [(name, v)][1..] == [];
  }

  /** Every name is present and named once, so each `pop` succeeds. */
  predicate AllPresentOnce(args: Args, names: seq<string>) {
    forall i :: 0 <= i < |names| ==>
      names[i] in args && forall j :: 0 <= j < i ==> names[j] != names[i]
  }

  /** The names popped before index `k`. */
  function Popped(names: seq<string>, k: nat): set<string>
    requires k <= |names|
  {
    set i | 0 <= i < k :: names[i]
  }

  /** Popping a present first name reduces the question to the rest. */
  lemma AllPresentOnceCons(args: Args, names: seq<string>)
    requires |names| > 0 && names[0] in args
    ensures AllPresentOnce(args, names) <==> AllPresentOnce(args - {names[0]}, names[1..])
  {
    if AllPresentOnce(args, names) {
      forall i | 0 <= i < |names| - 1
        ensures names[1..][i] in args - {names[0]}
      {
        assert names[0] != names[i + 1];
      }
    }
    if AllPresentOnce(args - {names[0]}, names[1..]) {
      forall i | 0 <= i < |names|
        ensures names[i] in args && forall j :: 0 <= j < i ==> names[j] != names[i]
      {
        if i > 0 {
          assert names[i] == names[1..][i - 1];
        }
      }
    }
  }

  /** `args.remove(*names)`: pops the names in order. The first name that is
      no longer present raises `KeyError`; it is returned as the second
      component, and the fields popped before it stay removed. */
  function Remove(args: Args, names: seq<string>): (r: (Args, Option<string>))
    ensures r.1.None? <==> AllPresentOnce(args, names)
    ensures r.1.None? ==> r.0.Keys == args.Keys - Popped(names, |names|)
    ensures r.1.Some? ==>
              exists k :: 0 <= k < |names| && AllPresentOnce(args, names[..k])
                          && names[k] !in args.Keys - Popped(names, k)
                          && r.1.value == names[k] && r.0.Keys == args.Keys - Popped(names, k)
    ensures r.0.Keys <= args.Keys && forall k :: k in r.0 ==> r.0[k] == args[k]
    decreases |names|
  {
    if |names| == 0 then (args, None)
    else if names[0] !in args then
      assert names[..0] == [] && Popped(names, 0) == {};
      assert AllPresentOnce(args, names[..0]) && names[0] !in args.Keys - Popped(names, 0);
      (args, Some(names[0]))
    else
      var rest := args - {names[0]};
      var r := Remove(rest, names[1..]);
      AllPresentOnceCons(args, names);
      assert Popped(names, |names|) == {names[0]} + Popped(names[1..], |names| - 1);
      if r.1.Some? then
        var k :| 0 <= k < |names| - 1 && AllPresentOnce(rest, names[1..][..k])
                 && names[1..][k] !in rest.Keys - Popped(names[1..], k)
                 && r.1.value == names[1..][k] && r.0.Keys == rest.Keys - Popped(names[1..], k);
        assert names[..k + 1][1..] == names[1..][..k] && names[..k + 1][0] == names[0];
        AllPresentOnceCons(args, names[..k + 1]);
        assert Popped(names, k + 1) == {names[0]} + Popped(names[1..], k);
        assert 0 <= k + 1 < |names| && AllPresentOnce(args, names[..k + 1])
               && names[k + 1] !in args.Keys - Popped(names, k + 1)
               && r.1.value == names[k + 1] && r.0.Keys == args.Keys - Popped(names, k + 1);
        r
      else
        r
  }

  /** The names of `fields`, in order. */
  function FieldNames(fields: seq<(string, Value)>): (ns: seq<string>)
    ensures |ns| == |fields| && forall i :: 0 <= i < |fields| ==> ns[i] == fields[i].0
  {
    seq(|fields|, i requires 0 <= i < |fields| => fields[i].0)
  }

  /** Removing the names just added succeeds and leaves exactly the fields
      that were there before and were not overwritten. */
  lemma RemoveAfterAdd(args: Args, fields: seq<(string, Value)>)
    requires DistinctNames(fields)
    ensures var r := Remove(Add(args, fields), FieldNames(fields));
            r.1.None? && r.0 == map k | k in args && k !in Names(fields) :: args[k]
  {
    var added := Add(args, fields);
    var ns := FieldNames(fields);
    assert AllPresentOnce(added, ns) by {
      forall i | 0 <= i < |ns|
        ensures ns[i] in added && forall j :: 0 <= j < i ==> ns[j] != ns[i]
      {
        assert ns[i] in Names(fields);
      }
    }
    assert Popped(ns, |ns|) == Names(fields) by {
      forall x | x in Names(fields) ensures x in Popped(ns, |ns|) {
        var i :| 0 <= i < |fields| && fields[i].0 == x;
        assert ns[i] == x;
      }
    }
  }
}

/**
 * The two serializer mixins of the core app. `ImmutableFieldsMixin.get_extra_kwargs` marks the
 * fields named in `Meta.immutable_fields` read-only when the serializer is bound to an
 * instance, so they can be set on create but not changed on update. `DynamicFieldsMixin`
 * takes an optional `fields` argument and drops every other declared field.
 */
module SerializerMixins {
  import opened Common

  /** A keyword argument value of a field. */
  datatype Arg = Flag(on: bool) | Text(text: string) | Number(n: int)

  /** The keyword arguments of one field. */
  type Kwargs = map<string, Arg>

  /** `extra_kwargs`: per field name, its keyword arguments. */
  type ExtraKwargs = map<string, Kwargs>

  /** What `getattr(self.Meta, "immutable_fields", None)` found. */
  datatype ImmutableFields = Unset | Names(names: seq<string>) | OtherValue(typeName: string)

  function TypeErrorMessage(typeName: string): string {
    "The `immutable_fields` option must be a list or tuple. Got " + typeName + "."
  }

  /** `extra_kwargs.get(name, {})` */
  function Get(d: ExtraKwargs, name: string): Kwargs {
    if name in d then d[name] else map[]
  }

  /** One loop step: the field's arguments, with `read_only` set. */
  function MarkOne(d: ExtraKwargs, name: string): ExtraKwargs {
    d[name := Get(d, name)["read_only" := Flag(true)]]
  }

  /**
   * The outcome of the loop, stated without it: every named field gets its arguments with
   * `read_only` set, every other field keeps its entry.
   */
  function MarkReadOnly(base: ExtraKwargs, names: seq<string>): ExtraKwargs {
    map k | k in base.Keys + (set n | n in names) ::
      if k in names then Get(base, k)["read_only" := Flag(true)] else base[k]
  }

  /** Marking one more name extends the statement over a prefix by one loop step. */
  lemma MarkReadOnlyStep(base: ExtraKwargs, names: seq<string>, i: nat)
    requires i < |names|
    ensures MarkReadOnly(base, names[..i + 1]) == MarkOne(MarkReadOnly(base, names[..i]), names[i])
  {
    var before := MarkReadOnly(base, names[..i]);
    var left := MarkReadOnly(base, names[..i + 1]);
    var right := MarkOne(before, names[i]);
    assert names[..i + 1] == names[..i] + [names[i]];
    assert left.Keys == right.Keys;
    forall k | k in left
      ensures left[k] == right[k]
    {
      if k == names[i] && k in names[..i] {
        assert Get(before, k) == Get(base, k)["read_only" := Flag(true)];
      }
    }
  }

  /**
   * `ImmutableFieldsMixin.get_extra_kwargs`, given the base class's `extra_kwargs`, whether
   * the serializer has an instance, and the `immutable_fields` option.
   */
  method GetExtraKwargs(base: ExtraKwargs, hasInstance: bool, immutable: ImmutableFields) returns (r: Result<ExtraKwargs>)
    ensures !hasInstance || immutable.Unset? ==> r == Success(base)
    ensures hasInstance && immutable.OtherValue? ==> r == Failure(TypeErrorMessage(immutable.typeName))
    ensures hasInstance && immutable.Names? ==> r == Success(MarkReadOnly(base, immutable.names))
  {
    var extra := base;
    if hasInstance && !immutable.Unset? {
      if immutable.OtherValue? {
        return Failure(TypeErrorMessage(immutable.typeName));
      }
      var names := immutable.names;
      assert MarkReadOnly(base, names[..0]) == base;
      for i := 0 to |names|
        invariant extra == MarkReadOnly(base, names[..i])
      {
        var kwargs := Get(extra, names[i]);
        kwargs := kwargs["read_only" := Flag(true)];
        extra := extra[names[i] := kwargs];
        MarkReadOnlyStep(base, names, i);
      }
      assert names[..|names|] == names;
    }
    return Success(extra);
  }

  /** Every named field ends up with `read_only` set. */
  lemma NamedFieldsReadOnly(base: ExtraKwargs, names: seq<string>)
    ensures forall n :: n in names ==> n in MarkReadOnly(base, names) && MarkReadOnly(base, names)[n]["read_only"] == Flag(true)
  {
  }

  /** The other arguments of a named field are kept. */
  lemma NamedFieldsKeepOtherArgs(base: ExtraKwargs, names: seq<string>, n: string, key: string)
    requires n in names && n in base && key in base[n] && key != "read_only"
    ensures key in MarkReadOnly(base, names)[n] && MarkReadOnly(base, names)[n][key] == base[n][key]
  {
  }

  /** Fields not named keep their entries, and no entry appears for a field neither stored nor named. */
  lemma OtherFieldsUnchanged(base: ExtraKwargs, names: seq<string>, k: string)
    requires k !in names
    ensures k in MarkReadOnly(base, names) <==> k in base
    ensures k in base ==> MarkReadOnly(base, names)[k] == base[k]
  {
  }

  /** Marking the same fields a second time changes nothing. */
  lemma MarkReadOnlyIdempotent(base: ExtraKwargs, names: seq<string>)
    ensures MarkReadOnly(MarkReadOnly(base, names), names) == MarkReadOnly(base, names)
  {
    var once := MarkReadOnly(base, names);
    var twice := MarkReadOnly(once, names);
    assert twice.Keys == once.Keys;
    forall k | k in twice
      ensures twice[k] == once[k]
    {
      if k in names {
        assert Get(once, k) == Get(base, k)["read_only" := Flag(true)];
      }
    }
  }

  /**
   * A serializer using `DynamicFieldsMixin`: `fields` maps the declared field names to their
   * field objects.
   */
  class DynamicFieldsSerializer<F> {
    var fields: map<string, F>

    /**
     * `__init__`: with a `fields` argument, every declared field whose name is not in it is
     * popped; without one (or with None), every declared field stays.
     */
    constructor(declared: map<string, F>, only: Option<seq<string>>)
      ensures only.None? ==> fields == declared
      ensures only.Some? ==> fields.Keys == declared.Keys * (set n | n in only.value)
      ensures forall k :: k in fields ==> k in declared && fields[k] == declared[k]
    {
      fields := declared;
      new;
      if only.Some? {
        var allowed := set n | n in only.value;
        var drop := declared.Keys - allowed;
        while drop != {}
          invariant drop <= declared.Keys - allowed
          invariant fields.Keys == declared.Keys - ((declared.Keys - allowed) - drop)
          invariant forall k :: k in fields ==> fields[k] == declared[k]
          decreases |drop|
        {
          var name :| name in drop;
          fields := fields - {name};
          drop := drop - {name};
        }
      }
    }
  }
}

/** The memory log's commands, each rewriting the file it was given. */
module MemlogCommands {
  import opened Common
  import opened Memlog
  import opened MemlogText
  import opened MemlogResults
  import opened MemlogKeys
  import opened MemlogSet
  import opened MemlogHistory
  import opened MemlogKept

  predicate AllPairs(pairs: seq<string>) { forall p :: p in pairs ==> '=' in p }

  function FieldsOf(pairs: seq<string>): (fields: seq<Field>)
    requires AllPairs(pairs)
    ensures |fields| == |pairs| && forall i :: 0 <= i < |pairs| ==> fields[i] == FieldOf(pairs[i])
  {
    seq(|pairs|, i requires 0 <= i < |pairs| => assert pairs[i] in pairs; FieldOf(pairs[i]))
  }

  lemma StepInit(pairs: seq<string>, p: string)
    requires AllPairs(pairs) && '=' in p
    ensures AllPairs(pairs + [p])
    ensures InitMeta(FieldsOf(pairs + [p]))
         == Assign(InitMeta(FieldsOf(pairs)), Strip(FieldOf(p).key), Strip(FieldOf(p).value))
  {
    hide FieldOf, Strip, Assign;
    var fields := FieldsOf(pairs + [p]);
    assert fields[..|pairs|] == FieldsOf(pairs);
  }

  lemma OthersKept(text: string, key: string, value: string, now: string)
    requires Split(text).Ok?
    ensures Execute(text, Set(key, value), now).Ok? && Split(Execute(text, Set(key, value), now).value).Ok?
    ensures NamesOnlyItself(key) ==>
              forall n :: n != key && n != "updated" ==>
                Lookup(Split(Execute(text, Set(key, value), now).value).value.meta, n)
                    == Lookup(Split(text).value.meta, n)
  {
    hide Split, Execute, NamesOnlyItself, Lookup, FieldsAfter, SpillsEntries;
    SetKeepsEntries(text, key, value, now);
    KeptIsAfter(text, key, value, now);
    KeepsOthersExactly(key, value, now);
  }

  class LogFile {
    /** The file's text; `None` before `init`. */
    var text: Option<string>

    constructor (text: Option<string>)
      ensures this.text == text
    {
      this.text := text;
    }

    ghost predicate Readable()
      reads this
    {
      text.Some? && Split(text.value).Ok?
    }

    ghost function History(): seq<string>
      requires Readable()
      reads this
    {
      Entries(Split(text.value).value.body)
    }

    ghost function Body(): string
      requires Readable()
      reads this
    {
      Split(text.value).value.body
    }

    ghost function Fields(): seq<Field>
      requires Readable()
      reads this
    {
      Split(text.value).value.meta
    }

    /** `cmd_init`: refuses an existing file and a pair without an equals sign, changing nothing. */
    method CmdInit(pairs: seq<string>, now: string) returns (code: int)
      modifies this
      ensures code == if old(text).None? && AllPairs(pairs) then 0 else 2
      ensures code != 0 ==> text == old(text)
      ensures code == 0 ==> Readable()
      ensures code == 0 ==> (History() == [] <==> !SpillsIn(AllKeyLines(Touch(InitMeta(FieldsOf(pairs)), now))))
      ensures code == 0 && (forall p :: p in pairs ==> OneLine(FieldOf(p).key)) ==> History() == []
      ensures code == 0 && (forall p :: p in pairs ==> TidyKey(Strip(FieldOf(p).key))) ==>
                Fields() == Touch(ReadBackAll(InitMeta(FieldsOf(pairs))), ReadBack(now))
    {
      hide Split, Render, Touch, Entries, FieldOf, Strip, Assign, OneLine, SpillsIn, AllKeyLines, TidyKey, ReadBack;
      if text.Some? {
        return 2;
      }
      var meta: seq<Field> := [];
      for i := 0 to |pairs|
        invariant text == old(text) && AllPairs(pairs[..i])
        invariant meta == InitMeta(FieldsOf(pairs[..i]))
      {
        assert pairs[i] in pairs;
        assert pairs[..i + 1][..i] == pairs[..i];
        if '=' !in pairs[i] {
          return 2;
        }
        var f := FieldOf(pairs[i]);
        StepInit(pairs[..i], pairs[i]);
        assert pairs[..i] + [pairs[i]] == pairs[..i + 1];
        meta := Assign(meta, Strip(f.key), Strip(f.value));
      }
      assert pairs[..|pairs|] == pairs;
      text := Some(Render(Touch(meta, now), ""));
      if forall p :: p in pairs ==> OneLine(FieldOf(p).key) {
        assert forall f :: f in FieldsOf(pairs) ==> OneLine(f.key);
        OneLineKeysSpillNothing(FieldsOf(pairs), now);
      }
      if forall p :: p in pairs ==> TidyKey(Strip(FieldOf(p).key)) {
        assert forall f :: f in FieldsOf(pairs) ==> TidyKey(Strip(f.key));
        InitFields(FieldsOf(pairs), now);
      }
      InitEntries(FieldsOf(pairs), now);
      code := 0;
    }

    /** `cmd_append`: an unreadable log raises and stays as it was. */
    method CmdAppend(t: string, kind: string, who: string, now: string) returns (ok: bool)
      modifies this
      ensures ok == old(Readable())
      ensures !ok ==> text == old(text)
      ensures ok ==> Readable() && Fields() == Touch(old(Fields()), ReadBack(now))
      ensures ok ==> (OneLine(Label(kind, who)) <==> History() == old(History()) + [EntryLine(t, kind, who)])
      ensures ok && OneLine(Label(kind, who)) ==> EndsWith(old(Body()), EntryLine(t, kind, who), Body())
    {
      hide Split, Render, Touch, Entries, EntryLine, Label, AppendBody, OneLine, Trimmed, AllSpace;
      if text.None? {
        return false;
      }
      var r := SplitText(text.value);
      if !r.Ok? {
        return false;
      }
      var Parsed(meta, body) := r.value;
      ghost var before := text.value;
      AppendGrows(before, t, kind, who, now);
      if OneLine(Label(kind, who)) {
        var kept, tail := AppendKeepsBody(before, t, kind, who, now);
      }
      FieldsKept(before, Append(t, kind, who), now);
      text := Some(Render(Touch(meta, now), AppendBody(body, EntryLine(t, kind, who))));
      ok := true;
    }

    /** `cmd_set`. */
    method CmdSet(key: string, value: string, now: string) returns (ok: bool)
      modifies this
      ensures ok == old(Readable())
      ensures !ok ==> text == old(text)
      ensures ok ==> Readable() && (History() == old(History()) <==> !SpillsEntries(key))
      ensures ok && OneLine(key) ==> exists tail :: Trimmed(old(Body()), Body(), tail)
      ensures ok && TidyKey(key) ==> Fields() == Touch(Assign(old(Fields()), key, ReadBack(value)), ReadBack(now))
      ensures ok && NamesOnlyItself(key) ==>
                forall n :: n != key && n != "updated" ==> Lookup(Fields(), n) == Lookup(old(Fields()), n)
    {
      hide Split, Render, Touch, Entries, Assign, TidyKey, NamesOnlyItself, SpillsEntries, ReadBack, Lookup, OneLine,
        Trimmed;
      if text.None? {
        return false;
      }
      var r := SplitText(text.value);
      if !r.Ok? {
        return false;
      }
      var Parsed(meta, body) := r.value;
      ghost var before := text.value;
      SetKeepsEntries(before, key, value, now);
      ghost var kept, tail := "", "";
      if OneLine(key) {
        kept, tail := SetKeepsBody(before, key, value, now);
      }
      if TidyKey(key) {
        FieldsKept(before, Set(key, value), now);
      }
      OthersKept(before, key, value, now);
      text := Some(Render(Touch(Assign(meta, key, value), now), body));
      assert OneLine(key) ==> Trimmed(old(Body()), Body(), tail);
      ok := true;
    }
  }
}

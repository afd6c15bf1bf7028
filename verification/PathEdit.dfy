/** Edits of a JSON document by path. A path edit that throws is None and leaves the document
    as it was. */
module PathEdit {
  import opened Json
  import opened Text

  predicate Separates(c: char) {
    c == '.' || IsSpace(c)
  }

  lemma SeparatorCharacters(c: char)
    ensures Separates(c) <==> c in {'.', ' ', '\t', '\n', '\U{0B}', '\U{0C}', '\r'}
  {
  }

  /** The end of the run of characters from a position that do, or do not, separate. */
  function RunEnd(s: string, from: nat, separating: bool): (k: nat)
    requires from <= |s|
    ensures from <= k <= |s|
    ensures forall i :: from <= i < k ==> Separates(s[i]) == separating
    ensures k < |s| ==> Separates(s[k]) != separating
    decreases |s| - from
  {
    if from < |s| && Separates(s[from]) == separating then RunEnd(s, from + 1, separating) else from
  }

  /** `split_path`: the non-empty pieces between dots and blanks. */
  function SplitPath(path: string): (tokens: seq<string>)
    ensures forall i :: 0 <= i < |tokens| ==> tokens[i] != "" && forall c :: c in tokens[i] ==> !Separates(c)
    decreases |path|
  {
    var start := RunEnd(path, 0, true);
    if start == |path| then []
    else
      var end := RunEnd(path, start, false);
      [path[start..end]] + SplitPath(path[end..])
  }

  predicate IsToken(t: string) {
    t != "" && forall c :: c in t ==> !Separates(c)
  }

  /** The tokens with dots between them. */
  function Dotted(tokens: seq<string>): string {
    if tokens == [] then ""
    else if |tokens| == 1 then tokens[0]
    else tokens[0] + "." + Dotted(tokens[1..])
  }

  lemma {:induction false} RunThrough(s: string, from: nat, to: nat, separating: bool)
    requires from <= to <= |s|
    requires forall i :: from <= i < to ==> Separates(s[i]) == separating
    requires to == |s| || Separates(s[to]) != separating
    ensures RunEnd(s, from, separating) == to
    decreases |s| - from
  {
    if from < to {
      RunThrough(s, from + 1, to, separating);
    }
  }

  lemma FirstToken(separators: string, t: string, rest: string)
    requires IsToken(t) && (rest == "" || Separates(rest[0]))
    requires forall c :: c in separators ==> Separates(c)
    ensures SplitPath(separators + t + rest) == [t] + SplitPath(rest)
  {
    var s := separators + t + rest;
    var start, end := |separators|, |separators| + |t|;
    assert forall i :: 0 <= i < start ==> s[i] == separators[i];
    assert forall i :: start <= i < end ==> s[i] == t[i - start];
    assert end < |s| ==> s[end] == rest[0];
    assert t[0] in t;
    RunThrough(s, 0, start, true);
    RunThrough(s, start, end, false);
    assert s[start..end] == t && s[end..] == rest;
  }

  /** Splitting a dotted path gives the tokens back, after any separators. */
  lemma {:induction false} SplitDotted(separators: string, tokens: seq<string>)
    requires forall i :: 0 <= i < |tokens| ==> IsToken(tokens[i])
    requires forall c :: c in separators ==> Separates(c)
    ensures SplitPath(separators + Dotted(tokens)) == tokens
    decreases |tokens|
  {
    hide SplitPath;
    if tokens == [] {
      assert separators + "" == separators;
      OnlySeparators(separators);
    } else if |tokens| == 1 {
      FirstToken(separators, tokens[0], "");
      OnlySeparators("");
      assert separators + Dotted(tokens) == separators + tokens[0] + "";
    } else {
      FirstToken(separators, tokens[0], "." + Dotted(tokens[1..]));
      SplitDotted(".", tokens[1..]);
      assert separators + Dotted(tokens) == separators + tokens[0] + ("." + Dotted(tokens[1..]));
    }
  }

  lemma OnlySeparators(s: string)
    requires forall c :: c in s ==> Separates(c)
    ensures SplitPath(s) == []
  {
    assert forall i :: 0 <= i < |s| ==> s[i] in s;
    RunThrough(s, 0, |s|, true);
  }

  /** `findChildValue`. */
  function Find(v: Value, path: seq<string>): Option<Value>
    requires path != []
    decreases |path|
  {
    if !v.Object? then None
    else
      var child :- At(v.members, path[0]);
      if |path| == 1 then Some(child) else Find(child, path[1..])
  }

  /** The document after the edit and the value that was replaced. */
  function Replace(v: Value, path: seq<string>, value: Value): Option<(Value, Value)>
    requires path != []
    decreases |path|
  {
    if !v.Object? then None
    else
      var child :- At(v.members, path[0]);
      if |path| == 1 then Some((Object(Put(v.members, path[0], value)), child))
      else
        var edit :- Replace(child, path[1..], value);
        Some((Object(Put(v.members, path[0], edit.0)), edit.1))
  }

  /** A child is inserted only where there is none. */
  function Insert(v: Value, path: seq<string>, value: Value): Option<Value>
    requires path != []
    decreases |path|
  {
    if !v.Object? then None
    else if |path| == 1 then
      if At(v.members, path[0]).Some? then None else Some(Object(Put(v.members, path[0], value)))
    else
      var child :- At(v.members, path[0]);
      var child' :- Insert(child, path[1..], value);
      Some(Object(Put(v.members, path[0], child')))
  }

  function Delete(v: Value, path: seq<string>): Option<(Value, Value)>
    requires path != []
    decreases |path|
  {
    if !v.Object? then None
    else
      var child :- At(v.members, path[0]);
      if |path| == 1 then Some((Object(DeleteAt(v.members, path[0])), child))
      else
        var edit :- Delete(child, path[1..]);
        Some((Object(Put(v.members, path[0], edit.0)), edit.1))
  }

  /** `getPayloadValueForKey`: what a document passed as a new child stands for. */
  function Payload(document: Value, key: string): Option<Value> {
    if !document.Object? then None
    else if Count(document.members, "payload") == 1 then
      CountZero(document.members, "payload");
      var value := At(document.members, "payload").value;
      if value.Object? && Count(value.members, key) == 1 then At(value.members, key) else Some(value)
    else if |document.members| == 1 then Some(document.members[0].value)
    else Some(document)
  }

  /** The tables on the way down a path: the value is the first of them, each holds the next
      under its token, and the last leads to the rest. */
  predicate Leads(v: Value, tokens: seq<string>, trail: seq<Table>, rest: Value)
    requires |trail| <= |tokens|
    decreases |trail|
  {
    if trail == [] then v == rest
    else
      && v == Object(trail[0]) && At(trail[0], tokens[0]).Some?
      && Leads(At(trail[0], tokens[0]).value, tokens[1..], trail[1..], rest)
  }

  /** The value with a new rest at the end of the trail. */
  function Rebuilt(tokens: seq<string>, trail: seq<Table>, rest: Value): Value
    requires |trail| <= |tokens|
  {
    if trail == [] then rest else Object(Put(trail[0], tokens[0], Rebuilt(tokens[1..], trail[1..], rest)))
  }

  lemma {:induction false} LeadsOn(v: Value, tokens: seq<string>, trail: seq<Table>, rest: Value)
    requires |trail| < |tokens| && Leads(v, tokens, trail, rest)
    requires rest.Object? && At(rest.members, tokens[|trail|]).Some?
    ensures Leads(v, tokens, trail + [rest.members], At(rest.members, tokens[|trail|]).value)
    decreases |trail|
  {
    var longer := trail + [rest.members];
    if trail != [] {
      LeadsOn(At(trail[0], tokens[0]).value, tokens[1..], trail[1..], rest);
      assert longer[1..] == trail[1..] + [rest.members];
    } else {
      assert longer[1..] == [];
    }
  }

  lemma {:induction false} RebuiltUp(tokens: seq<string>, trail: seq<Table>, rest: Value)
    requires 0 < |trail| <= |tokens|
    ensures var n := |trail| - 1;
      Rebuilt(tokens, trail, rest) == Rebuilt(tokens, trail[..n], Object(Put(trail[n], tokens[n], rest)))
  {
    var n := |trail| - 1;
    if n > 0 {
      RebuiltUp(tokens[1..], trail[1..], rest);
      assert trail[1..][..n - 1] == trail[..n][1..];
    } else {
      assert trail[1..] == [];
    }
  }

  /** An edit at a path is the edit of the table that the path leads to. */
  lemma {:induction false} EditsAtLeaf(v: Value, tokens: seq<string>, trail: seq<Table>, leaf: Value, value: Value)
    requires |tokens| == |trail| + 1 && Leads(v, tokens, trail, leaf)
    ensures var key := tokens[|trail|];
      var child := if leaf.Object? then At(leaf.members, key) else None;
      && Find(v, tokens) == child
      && Replace(v, tokens, value) ==
           (if child.None? then None
            else Some((Rebuilt(tokens, trail, Object(Put(leaf.members, key, value))), child.value)))
      && Insert(v, tokens, value) ==
           (if !leaf.Object? || child.Some? then None
            else Some(Rebuilt(tokens, trail, Object(Put(leaf.members, key, value)))))
      && Delete(v, tokens) ==
           (if child.None? then None
            else Some((Rebuilt(tokens, trail, Object(DeleteAt(leaf.members, key))), child.value)))
    decreases |trail|
  {
    if trail != [] {
      EditsAtLeaf(At(trail[0], tokens[0]).value, tokens[1..], trail[1..], leaf, value);
    }
  }

  /** Where the path ends early no edit is possible. */
  lemma {:induction false} EditsBlocked(v: Value, tokens: seq<string>, trail: seq<Table>, rest: Value, value: Value)
    requires |trail| + 1 < |tokens| && Leads(v, tokens, trail, rest)
    requires !rest.Object? || At(rest.members, tokens[|trail|]).None?
    ensures Parent(v, tokens).None? && Find(v, tokens).None?
    ensures Replace(v, tokens, value).None? && Insert(v, tokens, value).None? && Delete(v, tokens).None?
    decreases |trail|
  {
    assert tokens[..|tokens| - 1][1..] == tokens[1..][..|tokens| - 2];
    if trail != [] {
      EditsBlocked(At(trail[0], tokens[0]).value, tokens[1..], trail[1..], rest, value);
    }
  }

  class JSONDocument {
    var value: Value
    var isDirty: bool

    constructor (v: Value)
      ensures value == v && isDirty
    {
      value, isDirty := v, true;
    }

    /** The last token names the child. */
    method FindChildValue(path: string) returns (r: Option<Value>)
      ensures r == if SplitPath(path) == [] then None else Find(value, SplitPath(path))
    {
      var tokens := SplitPath(path);
      if tokens == [] {
        return None;
      }
      var current := value;
      ghost var whole := tokens;
      while |tokens| > 1
        invariant tokens != [] && Find(value, whole) == Find(current, tokens)
      {
        if !current.Object? {
          return None;
        }
        var child := At(current.members, tokens[0]);
        if child.None? {
          return None;
        }
        current, tokens := child.value, tokens[1..];
      }
      r := if current.Object? then At(current.members, tokens[0]) else None;
    }

    /** Goes down to the table that holds the last token, checking every table on the way;
        `edit` is the value that the caller is going to put there. */
    method Descend(tokens: seq<string>, ghost edit: Value) returns (ok: bool, leaf: Table, trail: seq<Table>)
      requires tokens != []
      ensures ok ==> |tokens| == |trail| + 1 && Leads(value, tokens, trail, Object(leaf))
      ensures !ok ==>
        Find(value, tokens).None? && Replace(value, tokens, edit).None? && Insert(value, tokens, edit).None?
        && Delete(value, tokens).None? && (Parent(value, tokens).None? || !Parent(value, tokens).value.Object?)
    {
      var current := value;
      trail, leaf := [], [];
      while |trail| + 1 < |tokens|
        invariant |trail| < |tokens| && Leads(value, tokens, trail, current)
        decreases |tokens| - |trail|
      {
        if !current.Object? || At(current.members, tokens[|trail|]).None? {
          EditsBlocked(value, tokens, trail, current, edit);
          return false, leaf, trail;
        }
        LeadsOn(value, tokens, trail, current);
        trail, current := trail + [current.members], At(current.members, tokens[|trail|]).value;
      }
      if !current.Object? {
        EditsAtLeaf(value, tokens, trail, current, edit);
        ParentIs(value, tokens, trail, current);
        return false, leaf, trail;
      }
      ok, leaf := true, current.members;
    }

    /** Puts a changed leaf back, table by table on the way up, and marks the document. */
    method Ascend(tokens: seq<string>, trail: seq<Table>, leaf: Table)
      requires |trail| < |tokens|
      modifies this
      ensures value == Rebuilt(tokens, trail, Object(leaf)) && isDirty
    {
      var i, rest := |trail|, Object(leaf);
      assert trail[..i] == trail;
      while i > 0
        invariant 0 <= i <= |trail|
        invariant Rebuilt(tokens, trail[..i], rest) == Rebuilt(tokens, trail, Object(leaf))
      {
        RebuiltUp(tokens, trail[..i], rest);
        assert trail[..i][..i - 1] == trail[..i - 1];
        i := i - 1;
        rest := Object(Put(trail[i], tokens[i], rest));
      }
      value, isDirty := rest, true;
    }

    /** Possible exactly where a value is found; the new payload is found there afterwards,
        other branches are as before, and the old value is returned under the path. An edit
        that throws changes nothing. */
    method ReplaceChild(newChild: Value, path: string) returns (r: Option<Value>)
      modifies this
      ensures var tokens := SplitPath(path);
        var payload := if tokens == [] then None else Payload(newChild, tokens[|tokens| - 1]);
        && (r.Some? <==> payload.Some? && Find(old(value), tokens).Some?)
        && (r.None? ==> value == old(value) && isDirty == old(isDirty))
        && (r.Some? ==>
              && isDirty && Find(value, tokens) == payload
              && r == Some(Object([Member(path, Find(old(value), tokens).value)]))
              && Replace(old(value), tokens, payload.value) == Some((value, Find(old(value), tokens).value))
              && forall other :: Diverge(tokens, other) ==> Find(value, other) == Find(old(value), other))
    {
      var tokens := SplitPath(path);
      if tokens == [] {
        return None;
      }
      var payload := Payload(newChild, tokens[|tokens| - 1]);
      if payload.None? {
        return None;
      }
      var ok, leaf, trail := Descend(tokens, payload.value);
      if !ok {
        return None;
      }
      var key := tokens[|trail|];
      EditsAtLeaf(value, tokens, trail, Object(leaf), payload.value);
      if Count(leaf, key) == 0 {
        CountZero(leaf, key);
        return None;
      }
      CountZero(leaf, key);
      var previous := At(leaf, key).value;
      EditLaws(value, tokens, payload.value);
      Ascend(tokens, trail, Put(leaf, key, payload.value));
      r := Some(Object([Member(path, previous)]));
    }

    /** Possible exactly where the parent is an object without the key; the payload is found
        there afterwards, deleting it again restores the document, other branches are as
        before. An edit that throws changes nothing. */
    method InsertChild(newChild: Value, path: string) returns (r: Option<Value>)
      modifies this
      ensures var tokens := SplitPath(path);
        var payload := if tokens == [] then None else Payload(newChild, tokens[|tokens| - 1]);
        && (r.Some? <==>
              && payload.Some? && Parent(old(value), tokens).Some?
              && Parent(old(value), tokens).value.Object? && Find(old(value), tokens).None?)
        && (r.None? ==> value == old(value) && isDirty == old(isDirty))
        && (r.Some? ==>
              && r == payload && isDirty && Find(value, tokens) == payload
              && Insert(old(value), tokens, payload.value) == Some(value)
              && Delete(value, tokens) == Some((old(value), payload.value))
              && forall other :: Diverge(tokens, other) ==> Find(value, other) == Find(old(value), other))
    {
      var tokens := SplitPath(path);
      if tokens == [] {
        return None;
      }
      var payload := Payload(newChild, tokens[|tokens| - 1]);
      if payload.None? {
        return None;
      }
      var ok, leaf, trail := Descend(tokens, payload.value);
      if !ok {
        return None;
      }
      var key := tokens[|trail|];
      EditsAtLeaf(value, tokens, trail, Object(leaf), payload.value);
      CountZero(leaf, key);
      EditLaws(value, tokens, payload.value);
      if Count(leaf, key) != 0 {
        return None;
      }
      Ascend(tokens, trail, Put(leaf, key, payload.value));
      r := payload;
    }

    /** Possible exactly where a value is found, which is returned; one occurrence of the key
        fewer is there afterwards, other branches are as before. An edit that throws changes
        nothing. */
    method DeleteChild(path: string) returns (r: Option<Value>)
      modifies this
      ensures var tokens := SplitPath(path);
        && r == (if tokens == [] then None else Find(old(value), tokens))
        && (r.None? ==> value == old(value) && isDirty == old(isDirty))
        && (r.Some? ==>
              && isDirty && Delete(old(value), tokens) == Some((value, r.value))
              && Parent(old(value), tokens).Some? && Parent(old(value), tokens).value.Object?
              && (Find(value, tokens).None? <==>
                    Count(Parent(old(value), tokens).value.members, tokens[|tokens| - 1]) == 1)
              && forall other :: Diverge(tokens, other) ==> Find(value, other) == Find(old(value), other))
    {
      var tokens := SplitPath(path);
      if tokens == [] {
        return None;
      }
      var ok, leaf, trail := Descend(tokens, Boolean(true));
      if !ok {
        return None;
      }
      var key := tokens[|trail|];
      EditsAtLeaf(value, tokens, trail, Object(leaf), Boolean(true));
      CountZero(leaf, key);
      if Count(leaf, key) == 0 {
        return None;
      }
      r := At(leaf, key);
      EditLaws(value, tokens, Boolean(true));
      Ascend(tokens, trail, DeleteAt(leaf, key));
    }

    /** An element is appended to the array at the path, in place. */
    method AppendChild(newChild: Value, path: string) returns (r: Option<Value>)
      modifies this
      ensures var tokens := SplitPath(path);
        var payload := Payload(newChild, "null");
        var target := if tokens == [] then None else Find(old(value), tokens);
        && (r.Some? <==> payload.Some? && target.Some? && target.value.Array?)
        && (r.None? ==> value == old(value) && isDirty == old(isDirty))
        && (r.Some? ==>
              && r == payload && isDirty
              && Replace(old(value), tokens, Array(target.value.items + [payload.value])) == Some((value, target.value)))
    {
      r := Payload(newChild, "null");
      var target := FindChildValue(path);
      if r.None? || target.None? || !target.value.Array? {
        return None;
      }
      var tokens := SplitPath(path);
      var longer := Array(target.value.items + [r.value]);
      ReplaceFinds(value, tokens, longer);
      var ok, leaf, trail := Descend(tokens, longer);
      EditsAtLeaf(value, tokens, trail, Object(leaf), longer);
      Ascend(tokens, trail, Put(leaf, tokens[|trail|], longer));
    }
  }

  lemma {:induction false} ParentIs(v: Value, tokens: seq<string>, trail: seq<Table>, leaf: Value)
    requires |tokens| == |trail| + 1 && Leads(v, tokens, trail, leaf)
    ensures Parent(v, tokens) == Some(leaf)
    decreases |trail|
  {
    if trail != [] {
      assert tokens[..|tokens| - 1][1..] == tokens[1..][..|tokens| - 2];
      ParentIs(At(trail[0], tokens[0]).value, tokens[1..], trail[1..], leaf);
    }
  }

  /** The laws of the edits at one path, together. */
  lemma EditLaws(v: Value, tokens: seq<string>, value: Value)
    requires tokens != []
    ensures Replace(v, tokens, value).Some? <==> Find(v, tokens).Some?
    ensures Replace(v, tokens, value).Some? ==>
      && Find(Replace(v, tokens, value).value.0, tokens) == Some(value)
      && forall other :: Diverge(tokens, other) ==> Find(Replace(v, tokens, value).value.0, other) == Find(v, other)
    ensures Insert(v, tokens, value).Some? <==>
      Parent(v, tokens).Some? && Parent(v, tokens).value.Object? && Find(v, tokens).None?
    ensures Insert(v, tokens, value).Some? ==>
      && Find(Insert(v, tokens, value).value, tokens) == Some(value)
      && Delete(Insert(v, tokens, value).value, tokens) == Some((v, value))
      && forall other :: Diverge(tokens, other) ==> Find(Insert(v, tokens, value).value, other) == Find(v, other)
    ensures Delete(v, tokens).Some? ==>
      && Parent(v, tokens).Some? && Parent(v, tokens).value.Object?
      && (Find(Delete(v, tokens).value.0, tokens).None? <==>
            Count(Parent(v, tokens).value.members, tokens[|tokens| - 1]) == 1)
      && forall other :: Diverge(tokens, other) ==> Find(Delete(v, tokens).value.0, other) == Find(v, other)
  {
    hide Find, Replace, Insert, Delete, Parent;
    ReplaceFinds(v, tokens, value);
    InsertMissing(v, tokens, value);
    FindAfterEdit(v, tokens, value);
    if Insert(v, tokens, value).Some? {
      DeleteUndoesInsert(v, tokens, value);
    }
    if Delete(v, tokens).Some? {
      FindAfterDelete(v, tokens);
    }
    forall other | Diverge(tokens, other)
      ensures Insert(v, tokens, value).Some? ==> Find(Insert(v, tokens, value).value, other) == Find(v, other)
      ensures Replace(v, tokens, value).Some? ==> Find(Replace(v, tokens, value).value.0, other) == Find(v, other)
      ensures Delete(v, tokens).Some? ==> Find(Delete(v, tokens).value.0, other) == Find(v, other)
    {
      OtherBranches(v, tokens, value, other);
    }
  }

  /** Replacing and deleting are possible exactly where a value is found, and return it. */
  lemma {:induction false} ReplaceFinds(v: Value, path: seq<string>, value: Value)
    requires path != []
    ensures Replace(v, path, value).Some? <==> Find(v, path).Some?
    ensures Delete(v, path).Some? <==> Find(v, path).Some?
    ensures Replace(v, path, value).Some? ==>
      Replace(v, path, value).value.1 == Find(v, path).value && Delete(v, path).value.1 == Find(v, path).value
    decreases |path|
  {
    if v.Object? && At(v.members, path[0]).Some? && |path| > 1 {
      ReplaceFinds(At(v.members, path[0]).value, path[1..], value);
    }
  }

  /** Inserting is possible exactly where nothing is found below an object that is. */
  lemma {:induction false} InsertMissing(v: Value, path: seq<string>, value: Value)
    requires path != []
    ensures var parent := Parent(v, path);
      Insert(v, path, value).Some? <==> parent.Some? && parent.value.Object? && Find(v, path).None?
    decreases |path|
  {
    if v.Object? && |path| > 1 {
      assert path[..|path| - 1][0] == path[0];
      if At(v.members, path[0]).Some? {
        InsertMissing(At(v.members, path[0]).value, path[1..], value);
        assert path[1..][..|path| - 2] == path[..|path| - 1][1..];
      }
    }
  }

  /** After an insertion or a replacement the new value is found. */
  lemma {:induction false} FindAfterEdit(v: Value, path: seq<string>, value: Value)
    requires path != []
    ensures Insert(v, path, value).Some? ==> Find(Insert(v, path, value).value, path) == Some(value)
    ensures Replace(v, path, value).Some? ==> Find(Replace(v, path, value).value.0, path) == Some(value)
    decreases |path|
  {
    if v.Object? {
      var child := At(v.members, path[0]);
      if |path| == 1 {
        AtPut(v.members, path[0], value, path[0]);
      } else if child.Some? {
        FindAfterEdit(child.value, path[1..], value);
        if Insert(child.value, path[1..], value).Some? {
          AtPut(v.members, path[0], Insert(child.value, path[1..], value).value, path[0]);
        }
        if Replace(child.value, path[1..], value).Some? {
          AtPut(v.members, path[0], Replace(child.value, path[1..], value).value.0, path[0]);
        }
      }
    }
  }

  /** Deleting what was inserted restores the document, member for member. */
  lemma {:induction false} DeleteUndoesInsert(v: Value, path: seq<string>, value: Value)
    requires path != [] && Insert(v, path, value).Some?
    ensures Delete(Insert(v, path, value).value, path) == Some((v, value))
    decreases |path|
  {
    var key := path[0];
    if |path| == 1 {
      PutMissing(v.members, key, value);
      DeleteAppended(v.members, key, value);
      AtPut(v.members, key, value, key);
    } else {
      var child := At(v.members, key).value;
      DeleteUndoesInsert(child, path[1..], value);
      var child' := Insert(child, path[1..], value).value;
      AtPut(v.members, key, child', key);
      PutTwice(v.members, key, child', child);
      PutSame(v.members, key);
    }
  }

  /** Replacing with the old value restores the document, and no other value does. */
  lemma {:induction false} ReplaceUndoesReplace(v: Value, path: seq<string>, value: Value, back: Value)
    requires path != [] && Replace(v, path, value).Some?
    ensures Replace(Replace(v, path, value).value.0, path, back) == Some((v, value)) <==>
      back == Replace(v, path, value).value.1
    decreases |path|
  {
    var key := path[0];
    var child := At(v.members, key).value;
    var child' := if |path| == 1 then value else Replace(child, path[1..], value).value.0;
    AtPut(v.members, key, child', key);
    if |path| > 1 {
      ReplaceUndoesReplace(child, path[1..], value, back);
      ReplaceFinds(child', path[1..], back);
      ReplaceFinds(child, path[1..], value);
      FindAfterEdit(child, path[1..], value);
      var child'' := Replace(child', path[1..], back).value.0;
      PutTwice(v.members, key, child', child'');
      AtPut(v.members, key, child'', key);
    } else {
      PutTwice(v.members, key, value, back);
      AtPut(v.members, key, back, key);
    }
    PutSame(v.members, key);
  }

  lemma {:induction false} FirstDeleted(t: Table, key: string)
    requires At(t, key).Some?
    ensures Count(DeleteAt(t, key), key) == Count(t, key) - 1
    ensures At(DeleteAt(t, key), key).None? <==> Count(t, key) == 1
  {
    CountZero(DeleteAt(t, key), key);
    if t[0].key != key {
      FirstDeleted(t[1..], key);
      assert ([t[0]] + DeleteAt(t[1..], key))[1..] == DeleteAt(t[1..], key);
    }
  }

  /** The object that holds the last key of a path. */
  function Parent(v: Value, path: seq<string>): Option<Value>
    requires path != []
  {
    if |path| == 1 then Some(v) else Find(v, path[..|path| - 1])
  }

  /** A deletion takes out the first member with the key: nothing is found there afterwards
      exactly when the key occurred once. */
  lemma {:induction false} FindAfterDelete(v: Value, path: seq<string>)
    requires path != [] && Delete(v, path).Some?
    ensures var parent := Parent(v, path);
      && parent.Some? && parent.value.Object?
      && (Find(Delete(v, path).value.0, path).None? <==> Count(parent.value.members, path[|path| - 1]) == 1)
    decreases |path|
  {
    if |path| == 1 {
      FirstDeleted(v.members, path[0]);
    } else {
      var child := At(v.members, path[0]).value;
      FindAfterDelete(child, path[1..]);
      AtPut(v.members, path[0], Delete(child, path[1..]).value.0, path[0]);
      assert path[..|path| - 1][1..] == path[1..][..|path| - 2];
    }
  }

  /** The paths part at some token. */
  predicate Diverge(p: seq<string>, q: seq<string>) {
    p != [] && q != [] && (p[0] != q[0] || Diverge(p[1..], q[1..]))
  }

  lemma {:induction false} AtDelete(t: Table, key: string, other: string)
    requires other != key
    ensures At(DeleteAt(t, key), other) == At(t, other)
  {
    if t != [] && t[0].key != key {
      AtDelete(t[1..], key, other);
      assert ([t[0]] + DeleteAt(t[1..], key))[1..] == DeleteAt(t[1..], key);
    }
  }

  /** Other branches are untouched by every edit. */
  lemma {:induction false} OtherBranches(v: Value, path: seq<string>, value: Value, other: seq<string>)
    requires Diverge(path, other)
    ensures Insert(v, path, value).Some? ==> Find(Insert(v, path, value).value, other) == Find(v, other)
    ensures Replace(v, path, value).Some? ==> Find(Replace(v, path, value).value.0, other) == Find(v, other)
    ensures Delete(v, path).Some? ==> Find(Delete(v, path).value.0, other) == Find(v, other)
    decreases |path|
  {
    if v.Object? {
      var child := At(v.members, path[0]);
      if |path| == 1 {
        AtPut(v.members, path[0], value, other[0]);
        AtDelete(v.members, path[0], other[0]);
      } else if child.Some? {
        var ins, rep, del := Insert(child.value, path[1..], value), Replace(child.value, path[1..], value), Delete(child.value, path[1..]);
        if path[0] == other[0] {
          OtherBranches(child.value, path[1..], value, other[1..]);
        }
        if ins.Some? {
          AtPut(v.members, path[0], ins.value, other[0]);
          AtPut(v.members, path[0], ins.value, path[0]);
        }
        if rep.Some? {
          AtPut(v.members, path[0], rep.value.0, other[0]);
          AtPut(v.members, path[0], rep.value.0, path[0]);
        }
        if del.Some? {
          AtPut(v.members, path[0], del.value.0, other[0]);
          AtPut(v.members, path[0], del.value.0, path[0]);
        }
      }
    }
  }

  /** A value inside an object is not that object. */
  lemma InnerDiffers(t: Table, key: string)
    requires At(t, key).Some?
    ensures At(t, key).value != Object(t)
  {
    AtFinds(t, key);
    var i :| 0 <= i < |t| && t[i] == Member(key, At(t, key).value);
    assert Object(t) decreases to t[i].value;
  }

  /** A value put under one key is unwrapped to itself, unless that key is `payload` and the
      value has one key `payload` too. */
  lemma PayloadWrapped(key: string, value: Value, name: string)
    requires key == "payload" ==> name == "payload"
    ensures Payload(Object([Member(key, value)]), name).Some?
    ensures Payload(Object([Member(key, value)]), name) == Some(value) <==>
      !(key == "payload" && value.Object? && Count(value.members, "payload") == 1)
  {
    var m := Member(key, value);
    LookupOne(m, "payload");
    if key == "payload" && value.Object? && Count(value.members, name) == 1 {
      CountZero(value.members, name);
      InnerDiffers(value.members, name);
    }
  }

  lemma SplitPayload()
    ensures SplitPath("payload") == ["payload"]
  {
    var path := "payload";
    assert RunEnd(path, 0, true) == 0;
    assert RunEnd(path, 0, false) == |path|;
    assert path[0..|path|] == path && SplitPath(path[|path|..]) == [];
  }

  /** What replaceChild returns, passed back to replaceChild, restores the document - except
      under the path `payload` when the old value is an object with one key `payload`,
      which is taken for a wrapper. */
  lemma ReturnedValueRestores(v: Value, path: string, value: Value)
    requires SplitPath(path) != [] && Replace(v, SplitPath(path), value).Some?
    ensures var tokens := SplitPath(path);
      var (edited, previous) := Replace(v, tokens, value).value;
      var back := Payload(Object([Member(path, previous)]), tokens[|tokens| - 1]);
      && back.Some?
      && (Replace(edited, tokens, back.value) == Some((v, value)) <==>
            !(path == "payload" && previous.Object? && Count(previous.members, "payload") == 1))
  {
    var tokens := SplitPath(path);
    var (edited, previous) := Replace(v, tokens, value).value;
    SplitPayload();
    hide SplitPath, Payload, Replace, Count;
    PayloadWrapped(path, previous, tokens[|tokens| - 1]);
    var back := Payload(Object([Member(path, previous)]), tokens[|tokens| - 1]).value;
    ReplaceUndoesReplace(v, tokens, value, back);
  }

  /** The exception at work: the number under `payload` inside `payload` does not come back
      as an object. */
  lemma PayloadNotRestored()
    ensures var v := Object([Member("payload", Object([Member("payload", Integer(1))]))]);
      var edited := Object([Member("payload", Integer(2))]);
      && SplitPath("payload") == ["payload"]
      && Replace(v, ["payload"], Integer(2)) == Some((edited, Object([Member("payload", Integer(1))])))
      && Payload(Object([Member("payload", Object([Member("payload", Integer(1))]))]), "payload") == Some(Integer(1))
      && Replace(edited, ["payload"], Integer(1)).value.0 != v
  {
    SplitPayload();
    var inner, two := Object([Member("payload", Integer(1))]), Integer(2);
    assert Put([Member("payload", inner)], "payload", two) == [Member("payload", two)];
    assert Put([Member("payload", two)], "payload", Integer(1)) == [Member("payload", Integer(1))];
    assert Count([Member("payload", inner)], "payload") == 1 && Count(inner.members, "payload") == 1;
  }

  /** What a document stands for when it is passed as a new child: the value under the key
      inside its only member `payload`; or that member's value; or, without such a member, the
      value of the only member it has, and else itself. */
  lemma PayloadMeans(t: Table, key: string)
    ensures forall i: nat, j: nat :: i < |t| && OnlyAt(t, "payload", i) && t[i].value.Object?
                                     && j < |t[i].value.members| && OnlyAt(t[i].value.members, key, j) ==>
      Payload(Object(t), key) == Some(t[i].value.members[j].value)
    ensures forall i: nat :: i < |t| && OnlyAt(t, "payload", i)
                             && (t[i].value.Object? ==> forall j: nat :: j < |t[i].value.members| ==> !OnlyAt(t[i].value.members, key, j)) ==>
      Payload(Object(t), key) == Some(t[i].value)
    ensures (forall i: nat :: i < |t| ==> !OnlyAt(t, "payload", i)) ==>
      Payload(Object(t), key) == Some(if |t| == 1 then t[0].value else Object(t))
  {
    CountOnly(t, "payload");
    forall i: nat | i < |t| && OnlyAt(t, "payload", i)
      ensures At(t, "payload") == Some(t[i].value) && Count(t, "payload") == 1
      ensures t[i].value.Object? ==>
        forall j: nat :: j < |t[i].value.members| && OnlyAt(t[i].value.members, key, j) ==>
          At(t[i].value.members, key) == Some(t[i].value.members[j].value)
      ensures t[i].value.Object? ==>
        (Count(t[i].value.members, key) == 1 <==> exists j: nat :: j < |t[i].value.members| && OnlyAt(t[i].value.members, key, j))
    {
      AtItsPlace(t, "payload", t[i].value, i);
      if t[i].value.Object? {
        var inner := t[i].value.members;
        CountOnly(inner, key);
        forall j: nat | j < |inner| && OnlyAt(inner, key, j)
          ensures At(inner, key) == Some(inner[j].value)
        {
          AtItsPlace(inner, key, inner[j].value, j);
        }
      }
    }
  }

  /** Anything but an object stands for nothing. */
  lemma NoPayload(v: Value, key: string)
    ensures Payload(v, key).None? <==> !v.Object?
  {
    if v.Object? {
      CountZero(v.members, "payload");
      if Count(v.members, "payload") == 1 && At(v.members, "payload").value.Object? {
        CountZero(At(v.members, "payload").value.members, key);
      }
    }
  }
}

/**
 * The dashboard sidebar's helpers: the label of a navigation item, looked up in the
 * translation tree by a dotted key, and the test that marks an item active.
 */
module AppSidebar {
  import opened Wrappers
  import opened Strings

  /** A node of the translation tree: a text, or an object of named children. */
  datatype TransNode = Text(text: string) | Group(children: map<string, TransNode>)

  /** `value?.[k]`: the child named `k`, or nothing when there is no such child or no value.
      Indexing into a text is taken to yield nothing. */
  function Step(value: Option<TransNode>, k: string): (r: Option<TransNode>)
    ensures r.Some? ==> value.Some? && value.value.Group? && k in value.value.children
  {
    if value.Some? && value.value.Group? && k in value.value.children then Some(value.value.children[k]) else None
  }

  /** The value reached from `start` by following `keys` in order. */
  function Walk(start: Option<TransNode>, keys: seq<string>): Option<TransNode>
    decreases |keys|
  {
    if keys == [] then start else Step(Walk(start, keys[..|keys| - 1]), keys[|keys| - 1])
  }

  /** `value || key`: the value reached by the key's segments, unless there is none or it is
      the empty text, in which case the key itself. */
  function LabelOf(t: TransNode, key: string): TransNode {
    var value := Walk(Some(t), Split(key, '.'));
    if value.None? || value == Some(Text("")) then Text(key) else value.value
  }

  /** `getLabel(key)`: splits the key on '.' and walks the tree one segment at a time. */
  method GetLabel(t: TransNode, key: string) returns (shown: TransNode)
    ensures shown == LabelOf(t, key)
  {
    var keys := Split(key, '.');
    var value := Some(t);
    var i := 0;
    while i < |keys|
      invariant 0 <= i <= |keys|
      invariant value == Walk(Some(t), keys[..i])
    {
      assert keys[..i + 1][..i] == keys[..i];
      value := Step(value, keys[i]);
      i := i + 1;
    }
    assert keys[..|keys|] == keys;
    if value.None? || value == Some(Text("")) {
      shown := Text(key);
    } else {
      shown := value.value;
    }
  }

  /** `location.pathname === item.to` */
  predicate IsActive(pathname: string, itemTo: string) {
    pathname == itemTo
  }

  // ------------------------------------------------------------------ lemmas

  /** Once a segment is missing, nothing further is reached. */
  lemma {:induction false} WalkFromNothing(keys: seq<string>)
    ensures Walk(None, keys) == None
    decreases |keys|
  {
    if keys != [] {
      WalkFromNothing(keys[..|keys| - 1]);
    }
  }

  /** Walking a path is walking its first part, then the rest. */
  lemma {:induction false} WalkAppend(start: Option<TransNode>, a: seq<string>, b: seq<string>)
    ensures Walk(start, a + b) == Walk(Walk(start, a), b)
    decreases |b|
  {
    if b == [] {
      assert a + b == a;
    } else {
      assert (a + b)[..|a + b| - 1] == a + b[..|b| - 1];
      WalkAppend(start, a, b[..|b| - 1]);
    }
  }

  /** A segment that is not a child of the node reached so far makes the label the key. */
  lemma MissingSegmentGivesKey(t: TransNode, key: string, i: nat)
    requires i < |Split(key, '.')|
    requires Walk(Some(t), Split(key, '.')[..i]).Some? && Walk(Some(t), Split(key, '.')[..i]).value.Group?
    requires Split(key, '.')[i] !in Walk(Some(t), Split(key, '.')[..i]).value.children
    ensures LabelOf(t, key) == Text(key)
  {
    var keys := Split(key, '.');
    assert keys == keys[..i + 1] + keys[i + 1..];
    assert keys[..i + 1][..i] == keys[..i];
    WalkAppend(Some(t), keys[..i + 1], keys[i + 1..]);
    WalkFromNothing(keys[i + 1..]);
  }

  /** A path through a text leaf reaches nothing: the label is the key. */
  lemma PathThroughTextGivesKey(t: TransNode, key: string, i: nat)
    requires i < |Split(key, '.')|
    requires Walk(Some(t), Split(key, '.')[..i]).Some? && Walk(Some(t), Split(key, '.')[..i]).value.Text?
    ensures LabelOf(t, key) == Text(key)
  {
    var keys := Split(key, '.');
    assert keys == keys[..i + 1] + keys[i + 1..];
    assert keys[..i + 1][..i] == keys[..i];
    WalkAppend(Some(t), keys[..i + 1], keys[i + 1..]);
    WalkFromNothing(keys[i + 1..]);
  }

  /** A two-segment key finds the text under its group, and an empty text gives the key. */
  lemma TwoSegmentLabel(group: string, item: string, text: string, others: map<string, TransNode>)
    requires '.' !in group && '.' !in item
    ensures LabelOf(Group(others[group := Group(map[item := Text(text)])]), group + "." + item)
            == if text == "" then Text(group + "." + item) else Text(text)
  {
    var key := group + "." + item;
    assert key == group + ['.'] + item;
    SplitAtFirst(group, item, '.');
    SplitWithoutSeparator(item, '.');
    var keys := [group, item];
    assert Split(key, '.') == keys;
    var root := Group(others[group := Group(map[item := Text(text)])]);
    assert keys[..1] == [group] && [group][..0] == [];
    assert Walk(Some(root), [group]) == Some(Group(map[item := Text(text)]));
    assert Walk(Some(root), keys) == Some(Text(text));
  }

  /** Activity is exact: an item is not active on a longer path under it. */
  lemma NotActiveBelow(itemTo: string, rest: string)
    requires rest != ""
    ensures !IsActive(itemTo + rest, itemTo)
  {
    assert |itemTo + rest| > |itemTo|;
  }
}

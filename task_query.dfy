/**
  The list query's parameters and their meaning: the clamped limit and offset, the
  `where` object built from the filters, the newest-first order and the skip/take
  window.
 */
module TaskQuery {
  import opened Wrappers
  import opened Records
  import opened Text

  const DefaultLimit := 20
  const MaxLimit := 100

  function Min(a: int, b: int): int { if a <= b then a else b }
  function Max(a: int, b: int): int { if a >= b then a else b }

  /** `Math.min(Math.max(limit ?? DEFAULT_LIMIT, 1), MAX_LIMIT)`. */
  function EffectiveLimit(limit: Option<int>): (r: int)
    ensures 1 <= r <= MaxLimit
    ensures limit.None? ==> r == DefaultLimit
    ensures limit.Some? && 1 <= limit.value <= MaxLimit ==> r == limit.value
    ensures limit.Some? && limit.value < 1 ==> r == 1
    ensures limit.Some? && limit.value > MaxLimit ==> r == MaxLimit
  {
    Min(Max(if limit.Some? then limit.value else DefaultLimit, 1), MaxLimit)
  }

  /** `Math.max(offset ?? 0, 0)`. */
  function EffectiveOffset(offset: Option<int>): (r: int)
    ensures r >= 0
    ensures offset.None? ==> r == 0
    ensures offset.Some? && offset.value >= 0 ==> r == offset.value
    ensures offset.Some? && offset.value < 0 ==> r == 0
  {
    Max(if offset.Some? then offset.value else 0, 0)
  }

  datatype ListParams = ListParams(
    limit: Option<int>,
    offset: Option<int>,
    status: Option<Status>,
    category: Option<Category>,
    controlId: Option<Id>,
    search: Option<string>)

  /** A JavaScript `if (value)` on an optional string: present and non-empty. */
  predicate Truthy(s: Option<string>)
  {
    s.Some? && s.value != ""
  }

  /** One arm of the `OR` search clause. */
  datatype SearchClause = NameContains(text: string) | DescriptionContains(text: string)

  /** The query's `where` object: a field left `None` is not set and imposes nothing. */
  datatype TaskWhere = TaskWhere(
    organizationId: Id,
    status: Option<Status>,
    category: Option<Category>,
    controlId: Option<Id>,
    anyOf: Option<seq<SearchClause>>)

  predicate ClauseHolds(c: SearchClause, t: Task)
  {
    match c
    case NameContains(text) => ContainsInsensitive(t.name, text)
    case DescriptionContains(text) => t.description.Some? && ContainsInsensitive(t.description.value, text)
  }

  /** Whether a task row satisfies the `where` object, field by field. */
  predicate Matches(w: TaskWhere, t: Task)
  {
    && t.organizationId == w.organizationId
    && (w.status.Some? ==> t.status == w.status.value)
    && (w.category.Some? ==> t.category == w.category.value)
    && (w.controlId.Some? ==> t.controlId == w.controlId.value)
    && (w.anyOf.Some? ==> exists i :: 0 <= i < |w.anyOf.value| && ClauseHolds(w.anyOf.value[i], t))
  }

  /**
    Which tasks a list call with these parameters selects, stated directly from the
    parameters: the caller's tasks, each supplied filter matched exactly, and the
    search text found in the name or in a non-null description.
   */
  predicate Selected(organizationId: Id, params: ListParams, t: Task)
  {
    && t.organizationId == organizationId
    && (Truthy(params.status) ==> t.status == params.status.value)
    && (Truthy(params.category) ==> t.category == params.category.value)
    && (Truthy(params.controlId) ==> t.controlId == params.controlId.value)
    && (Truthy(params.search) ==>
          ContainsInsensitive(t.name, params.search.value)
          || (t.description.Some? && ContainsInsensitive(t.description.value, params.search.value)))
  }

  /** Builds the `where` object field by field, as the service does. */
  method BuildWhere(organizationId: Id, params: ListParams) returns (w: TaskWhere)
    ensures w.organizationId == organizationId
    ensures forall t :: Matches(w, t) <==> Selected(organizationId, params, t)
  {
    w := TaskWhere(organizationId, None, None, None, None);
    if Truthy(params.status) {
      w := w.(status := params.status);
    }
    if Truthy(params.category) {
      w := w.(category := params.category);
    }
    if Truthy(params.controlId) {
      w := w.(controlId := params.controlId);
    }
    if Truthy(params.search) {
      var text := params.search.value;
      w := w.(anyOf := Some([NameContains(text), DescriptionContains(text)]));
    }
    forall t ensures Matches(w, t) <==> Selected(organizationId, params, t) {
      if Truthy(params.search) {
        SearchClausesMeanNameOrDescription(params.search.value, t);
      }
    }
  }

  /** The two-armed `OR` holds exactly when the name or a non-null description contains the text. */
  lemma SearchClausesMeanNameOrDescription(text: string, t: Task)
    ensures (exists i :: 0 <= i < 2 && ClauseHolds([NameContains(text), DescriptionContains(text)][i], t))
        <==> ContainsInsensitive(t.name, text) || (t.description.Some? && ContainsInsensitive(t.description.value, text))
  {
    var arms := [NameContains(text), DescriptionContains(text)];
    if ContainsInsensitive(t.name, text) {
      assert ClauseHolds(arms[0], t);
    } else if t.description.Some? && ContainsInsensitive(t.description.value, text) {
      assert ClauseHolds(arms[1], t);
    }
  }

  /** An empty or missing filter constrains nothing but the organization. */
  lemma NoFiltersSelectsWholeOrganization(organizationId: Id, params: ListParams, t: Task)
    requires !Truthy(params.status) && !Truthy(params.category)
    requires !Truthy(params.controlId) && !Truthy(params.search)
    ensures Selected(organizationId, params, t) <==> t.organizationId == organizationId
  {
  }

  /** Newest first: `orderBy: { createdAt: 'desc' }`. */
  predicate NewestFirst(s: seq<Task>)
  {
    forall i, j :: 0 <= i < j < |s| ==> s[i].createdAt >= s[j].createdAt
  }

  /** Places `t` in a newest-first sequence ahead of every task not newer than it. */
  function InsertNewestFirst(s: seq<Task>, t: Task): (r: seq<Task>)
    ensures |r| == |s| + 1
    ensures multiset(r) == multiset(s) + multiset{t}
    ensures forall x :: x in r <==> x in s || x == t
  {
    if s == [] || t.createdAt >= s[0].createdAt then
      [t] + s
    else
      assert s == [s[0]] + s[1..];
      [s[0]] + InsertNewestFirst(s[1..], t)
  }

  /** Insertion keeps a sequence newest first. */
  lemma {:induction false} InsertKeepsNewestFirst(s: seq<Task>, t: Task)
    requires NewestFirst(s)
    ensures NewestFirst(InsertNewestFirst(s, t))
  {
    if s == [] || t.createdAt >= s[0].createdAt {
    } else {
      var tail := s[1..];
      var rest := InsertNewestFirst(tail, t);
      assert NewestFirst(tail) by {
        forall i, j | 0 <= i < j < |tail| ensures tail[i].createdAt >= tail[j].createdAt {
          assert tail[i] == s[i + 1] && tail[j] == s[j + 1];
        }
      }
      InsertKeepsNewestFirst(tail, t);
      assert forall k :: 0 <= k < |tail| ==> s[0].createdAt >= tail[k].createdAt by {
        forall k | 0 <= k < |tail| ensures s[0].createdAt >= tail[k].createdAt {
          assert tail[k] == s[k + 1];
        }
      }
      var r := [s[0]] + rest;
      assert r == InsertNewestFirst(s, t);
      forall i, j | 0 <= i < j < |r| ensures r[i].createdAt >= r[j].createdAt {
        if i == 0 {
          assert r[j] in rest;
        } else {
          assert r[i] == rest[i - 1] && r[j] == rest[j - 1];
        }
      }
    }
  }

  /** `skip: offset, take: limit`. */
  function Window<T>(s: seq<T>, skip: nat, take: nat): (r: seq<T>)
    ensures |r| == Min(take, Max(|s| - skip, 0))
    ensures forall i :: 0 <= i < |r| ==> skip + i < |s| && r[i] == s[skip + i]
  {
    if skip >= |s| then [] else if take >= |s| - skip then s[skip..] else s[skip..skip + take]
  }

  /** A window of a newest-first sequence is newest first. */
  lemma WindowKeepsOrder(s: seq<Task>, skip: nat, take: nat)
    requires NewestFirst(s)
    ensures NewestFirst(Window(s, skip, take))
  {
    var r := Window(s, skip, take);
    forall i, j | 0 <= i < j < |r| ensures r[i].createdAt >= r[j].createdAt {
      assert r[i] == s[skip + i] && r[j] == s[skip + j];
    }
  }

  /**
    Paging is seamless: the page at `offset` followed by the page right after it is
    the one page that spans both, so consecutive pages neither overlap nor skip.
   */
  lemma ConsecutivePagesJoin<T>(s: seq<T>, offset: nat, limit1: nat, limit2: nat)
    ensures Window(s, offset, limit1) + Window(s, offset + limit1, limit2) == Window(s, offset, limit1 + limit2)
  {
    var a, b, c := Window(s, offset, limit1), Window(s, offset + limit1, limit2), Window(s, offset, limit1 + limit2);
    if offset + limit1 < |s| {
      assert |a| == limit1;
    } else {
      assert |b| == 0;
    }
    assert |a + b| == |c|;
    forall i | 0 <= i < |c| ensures (a + b)[i] == c[i] {
      if i < |a| {
        assert (a + b)[i] == a[i];
      } else {
        assert (a + b)[i] == b[i - |a|];
      }
    }
  }

  /** Every item on a page is one of the sequence's items, so the page never exceeds the total. */
  lemma WindowWithinTotal<T>(s: seq<T>, skip: nat, take: nat)
    ensures |Window(s, skip, take)| <= |s| && |Window(s, skip, take)| <= take
    ensures forall x :: x in Window(s, skip, take) ==> x in s
  {
    var r := Window(s, skip, take);
    forall x | x in r ensures x in s {
      var i :| 0 <= i < |r| && r[i] == x;
      assert s[skip + i] == x;
    }
  }
}

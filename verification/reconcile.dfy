/**
 Matching the columns of an imported file to a Workflow's Variables
 (`reconcile` in `reconcile.ts`).  `norm` is the normal form both sides are
 compared in; nothing is assumed about it.
 */
module Reconcile {
  import opened Wrappers
  import opened EditDistance
  import opened Sequences

  datatype Variable = Variable(name: string, secret: bool)

  datatype MappingEntry = MappingEntry(variableName: string, header: Option<string>, suggested: bool)

  datatype Reconciled = Reconciled(
    confident: bool, mapping: seq<MappingEntry>, ignoredHeaders: seq<string>, droppedSecretHeaders: seq<string>)

  type Norm = string -> string

  function Filter(s: seq<string>, p: string -> bool): seq<string> {
    if s == [] then []
    else Filter(s[..|s| - 1], p) + if p(s[|s| - 1]) then [s[|s| - 1]] else []
  }

  /** How often each word survives a filter. */
  lemma {:induction false} FilterCounts(s: seq<string>, p: string -> bool, x: string)
    ensures multiset(Filter(s, p))[x] == if p(x) then multiset(s)[x] else 0
    ensures x in Filter(s, p) <==> x in s && p(x)
  {
    if s != [] {
      var k := |s| - 1;
      FilterCounts(s[..k], p, x);
      assert s == s[..k] + [s[k]];
    }
  }

  /** `isNearMatch`. */
  predicate Near(left: string, right: string) {
    && left != "" && right != ""
    && (left == right || Contains(left, right) || Contains(right, left) || Dist(left, right) <= 2)
  }

  /** Two forms are near if neither is empty and they are the same, or one holds the other, or at most
      two edits of a character lead from one to the other. */
  lemma NearMeans(left: string, right: string)
    ensures Near(left, right) <==>
            && left != "" && right != ""
            && (Contains(left, right) || Contains(right, left) ||
                exists words :: Script(words, left, right) && |words| <= 3)
  {
    hide Script, Dist, Contains;
    if left == right {
      SameIsZero(left, right);
    }
    if Dist(left, right) <= 2 {
      var words := SomeScript(left, right);
      assert Script(words, left, right) && |words| <= 3;
    }
    if exists words :: Script(words, left, right) && |words| <= 3 {
      var words :| Script(words, left, right) && |words| <= 3;
      NoScriptIsShorter(words, left, right);
    }
  }

  // ------------------------------------------------------------- who gets what

  function PlainNames(variables: seq<Variable>): seq<string> {
    if variables == [] then []
    else
      var last := variables[|variables| - 1];
      PlainNames(variables[..|variables| - 1]) + if last.secret then [] else [last.name]
  }

  function SecretForms(variables: seq<Variable>, norm: Norm): set<string> {
    set v | v in variables && v.secret :: norm(v.name)
  }

  function Usable(headers: seq<string>, secrets: set<string>, norm: Norm): seq<string> {
    Filter(headers, h => norm(h) !in secrets)
  }

  function Dropped(headers: seq<string>, secrets: set<string>, norm: Norm): seq<string> {
    Filter(headers, h => norm(h) in secrets)
  }

  /** The words among `s` whose normal form is `key`. */
  function Alike(s: seq<string>, norm: Norm, key: string): seq<string> {
    Filter(s, w => norm(w) == key)
  }

  /** The only header like the Variable, if no other Variable is like it. */
  function Exact(usable: seq<string>, names: seq<string>, norm: Norm, name: string): Option<string> {
    var hits := Alike(usable, norm, norm(name));
    if |hits| == 1 && |Alike(names, norm, norm(hits[0]))| == 1 then Some(hits[0]) else None
  }

  function Taken(usable: seq<string>, names: seq<string>, norm: Norm): set<string> {
    set name | name in names && Exact(usable, names, norm, name).Some? :: Exact(usable, names, norm, name).value
  }

  /** The words of `s` that are not in `out`. */
  function Others(s: seq<string>, out: set<string>): seq<string> {
    Filter(s, w => w !in out)
  }

  function Remaining(usable: seq<string>, names: seq<string>, norm: Norm): seq<string> {
    Others(usable, Taken(usable, names, norm))
  }

  function Unmatched(usable: seq<string>, names: seq<string>, norm: Norm): seq<string> {
    Filter(names, name => Exact(usable, names, norm, name).None?)
  }

  function NearHeaders(headers: seq<string>, norm: Norm, name: string): seq<string> {
    Filter(headers, h => Near(norm(h), norm(name)))
  }

  /** How often the Variables of `names` together list the header as near. */
  function Claims(headers: seq<string>, names: seq<string>, norm: Norm, header: string): nat {
    if names == [] then 0
    else
      var k := |names| - 1;
      Claims(headers, names[..k], norm, header) + multiset(NearHeaders(headers, norm, names[k]))[header]
  }

  function Unclaimed(headers: seq<string>, names: seq<string>, norm: Norm, name: string): seq<string> {
    Filter(NearHeaders(headers, norm, name), h => Claims(headers, names, norm, h) == 1)
  }

  /** The one near header nobody else is near to. */
  function Suggestion(headers: seq<string>, names: seq<string>, norm: Norm, name: string): Option<string> {
    var unique := Unclaimed(headers, names, norm, name);
    if |unique| == 1 then Some(unique[0]) else None
  }

  function Entry(usable: seq<string>, names: seq<string>, norm: Norm, name: string): MappingEntry {
    var exact := Exact(usable, names, norm, name);
    if exact.Some? then MappingEntry(name, exact, false)
    else
      var suggestion := Suggestion(Remaining(usable, names, norm), Unmatched(usable, names, norm), norm, name);
      MappingEntry(name, suggestion, suggestion.Some?)
  }

  ghost predicate EveryCovered(usable: seq<string>, names: seq<string>, norm: Norm) {
    forall name :: name in names ==> Exact(usable, names, norm, name).Some?
  }

  // --------------------------------------------------------------- what it means

  lemma AlikeCounts(s: seq<string>, norm: Norm, key: string, x: string)
    ensures multiset(Alike(s, norm, key))[x] == if norm(x) == key then multiset(s)[x] else 0
    ensures x in Alike(s, norm, key) <==> x in s && norm(x) == key
  {
    FilterCounts(s, w => norm(w) == key, x);
  }

  lemma AlikeMembers(s: seq<string>, norm: Norm, key: string, x: string)
    ensures x in Alike(s, norm, key) <==> x in s && norm(x) == key
  {
    AlikeCounts(s, norm, key, x);
  }

  /** A sequence without other members. */
  lemma {:induction false} OnlyMember(s: seq<string>, x: string)
    requires forall y :: y in s ==> y == x
    ensures multiset(s)[x] == |s|
  {
    if s != [] {
      var k := |s| - 1;
      assert s == s[..k] + [s[k]] && s[k] in s;
      assert forall y :: y in s[..k] ==> y in s;
      OnlyMember(s[..k], x);
    }
  }

  lemma SingleMember(s: seq<string>, x: string)
    ensures s == [x] <==> multiset(s)[x] == 1 && forall y :: y in s ==> y == x
  {
    if forall y :: y in s ==> y == x {
      OnlyMember(s, x);
    }
    if multiset(s)[x] == 1 && |s| == 1 {
      assert s == [s[0]];
    }
  }

  /** A match that is mutual: one such header, once, and one such Variable, once. */
  ghost predicate Mutual(usable: seq<string>, names: seq<string>, norm: Norm, name: string, h: string) {
    && norm(h) == norm(name) && multiset(usable)[h] == 1 && multiset(names)[name] == 1
    && (forall other :: other in names && norm(other) == norm(name) ==> other == name)
    && (forall other :: other in usable && norm(other) == norm(name) ==> other == h)
  }

  /** A Variable has an exact match if and only if that is mutual. */
  lemma ExactMeans(usable: seq<string>, names: seq<string>, norm: Norm, name: string, h: string)
    requires name in names
    ensures Exact(usable, names, norm, name) == Some(h) <==> Mutual(usable, names, norm, name, h)
  {
    var hits := Alike(usable, norm, norm(name));
    forall x
      ensures x in hits <==> x in usable && norm(x) == norm(name)
    {
      AlikeCounts(usable, norm, norm(name), x);
    }
    AlikeCounts(usable, norm, norm(name), h);
    SingleMember(hits, h);
    assert |hits| == 1 && hits[0] == h ==> hits == [h];
    if norm(h) == norm(name) {
      var sharers := Alike(names, norm, norm(h));
      forall x
        ensures x in sharers <==> x in names && norm(x) == norm(name)
      {
        AlikeCounts(names, norm, norm(h), x);
      }
      AlikeCounts(names, norm, norm(h), name);
      SingleMember(sharers, name);
      assert |sharers| == 1 ==> sharers == [sharers[0]] && name in sharers;
    }
  }

  /** An exact match: the header occurs once, is like the Variable, and like no other Variable. */
  lemma ExactHas(usable: seq<string>, names: seq<string>, norm: Norm, name: string)
    requires Exact(usable, names, norm, name).Some? && name in names
    ensures var h := Exact(usable, names, norm, name).value;
            && norm(h) == norm(name) && multiset(usable)[h] == 1
            && (forall other :: other in names && norm(other) == norm(name) ==> other == name)
            && (forall other :: other in usable && norm(other) == norm(name) ==> other == h)
  {
    var hits := Alike(usable, norm, norm(name));
    var h := hits[0];
    assert h in hits;
    AlikeCounts(usable, norm, norm(name), h);
    assert hits == [h];
    var sharers := Alike(names, norm, norm(h));
    forall other | other in names && norm(other) == norm(name)
      ensures other == sharers[0]
    {
      AlikeCounts(names, norm, norm(h), other);
    }
    forall other | other in usable && norm(other) == norm(name)
      ensures other == h
    {
      AlikeCounts(usable, norm, norm(name), other);
    }
  }

  lemma {:induction false} ClaimsAtLeast(headers: seq<string>, names: seq<string>, norm: Norm, header: string, i: nat)
    requires i < |names|
    ensures Claims(headers, names, norm, header) >= multiset(NearHeaders(headers, norm, names[i]))[header]
  {
    hide NearHeaders;
    var k := |names| - 1;
    if i < k {
      assert names[..k][i] == names[i];
      ClaimsAtLeast(headers, names[..k], norm, header, i);
    }
  }

  lemma {:induction false} ClaimsOfTwo(headers: seq<string>, names: seq<string>, norm: Norm, header: string, i: nat,
                                       j: nat)
    requires i < j < |names|
    ensures Claims(headers, names, norm, header) >=
            multiset(NearHeaders(headers, norm, names[i]))[header]
            + multiset(NearHeaders(headers, norm, names[j]))[header]
  {
    hide NearHeaders;
    var k := |names| - 1;
    if j < k {
      assert names[..k][i] == names[i] && names[..k][j] == names[j];
      ClaimsOfTwo(headers, names[..k], norm, header, i, j);
    } else {
      assert names[..k][i] == names[i];
      ClaimsAtLeast(headers, names[..k], norm, header, i);
    }
  }

  lemma NearCounts(headers: seq<string>, norm: Norm, name: string, x: string)
    ensures multiset(NearHeaders(headers, norm, name))[x] ==
            if Near(norm(x), norm(name)) then multiset(headers)[x] else 0
    ensures x in NearHeaders(headers, norm, name) <==> x in headers && Near(norm(x), norm(name))
  {
    FilterCounts(headers, h => Near(norm(h), norm(name)), x);
  }

  lemma UnclaimedCounts(headers: seq<string>, names: seq<string>, norm: Norm, name: string, x: string)
    ensures x in Unclaimed(headers, names, norm, name) <==>
            x in NearHeaders(headers, norm, name) && Claims(headers, names, norm, x) == 1
    ensures multiset(Unclaimed(headers, names, norm, name))[x] ==
            if Claims(headers, names, norm, x) == 1 then multiset(NearHeaders(headers, norm, name))[x] else 0
  {
    FilterCounts(NearHeaders(headers, norm, name), h => Claims(headers, names, norm, h) == 1, x);
  }

  /** A suggestion: the header occurs once, and no other unmatched Variable is near it. */
  lemma SuggestionHas(headers: seq<string>, names: seq<string>, norm: Norm, i: nat)
    requires i < |names| && Suggestion(headers, names, norm, names[i]).Some?
    ensures var h := Suggestion(headers, names, norm, names[i]).value;
            && multiset(headers)[h] == 1 && h in headers && Near(norm(h), norm(names[i]))
            && (forall j :: 0 <= j < |names| && j != i ==> !Near(norm(h), norm(names[j])))
  {
    var name := names[i];
    var unique := Unclaimed(headers, names, norm, name);
    var h := unique[0];
    assert h in unique;
    UnclaimedCounts(headers, names, norm, name, h);
    NearCounts(headers, norm, name, h);
    ClaimsAtLeast(headers, names, norm, h, i);
    forall j | 0 <= j < |names| && j != i
      ensures !Near(norm(h), norm(names[j]))
    {
      NearCounts(headers, norm, names[j], h);
      if i < j {
        ClaimsOfTwo(headers, names, norm, h, i, j);
      } else {
        ClaimsOfTwo(headers, names, norm, h, j, i);
      }
    }
  }

  lemma OthersCounts(s: seq<string>, out: set<string>, x: string)
    ensures multiset(Others(s, out))[x] == if x in out then 0 else multiset(s)[x]
    ensures x in Others(s, out) <==> x in s && x !in out
  {
    FilterCounts(s, w => w !in out, x);
  }

  lemma RemainingCounts(usable: seq<string>, names: seq<string>, norm: Norm, x: string)
    ensures x in Remaining(usable, names, norm) <==> x in usable && x !in Taken(usable, names, norm)
    ensures multiset(Remaining(usable, names, norm))[x] ==
            if x in Taken(usable, names, norm) then 0 else multiset(usable)[x]
  {
    OthersCounts(usable, Taken(usable, names, norm), x);
  }

  lemma UnmatchedCounts(usable: seq<string>, names: seq<string>, norm: Norm, x: string)
    ensures x in Unmatched(usable, names, norm) <==> x in names && Exact(usable, names, norm, x).None?
    ensures multiset(Unmatched(usable, names, norm))[x] ==
            if Exact(usable, names, norm, x).None? then multiset(names)[x] else 0
  {
    FilterCounts(names, name => Exact(usable, names, norm, name).None?, x);
  }

  /** An assigned header occurs once among the usable headers. */
  lemma AssignedOnce(usable: seq<string>, names: seq<string>, norm: Norm, name: string)
    requires name in names && Entry(usable, names, norm, name).header.Some?
    ensures multiset(usable)[Entry(usable, names, norm, name).header.value] == 1
  {
    var entry := Entry(usable, names, norm, name);
    if Exact(usable, names, norm, name).Some? {
      ExactHas(usable, names, norm, name);
    } else {
      var i := IndexOfUnmatched(usable, names, norm, name);
      SuggestionHas(Remaining(usable, names, norm), Unmatched(usable, names, norm), norm, i);
      RemainingCounts(usable, names, norm, entry.header.value);
    }
  }

  lemma IndexOfUnmatched(usable: seq<string>, names: seq<string>, norm: Norm, name: string) returns (i: nat)
    requires name in names && Exact(usable, names, norm, name).None?
    ensures i < |Unmatched(usable, names, norm)| && Unmatched(usable, names, norm)[i] == name
  {
    UnmatchedCounts(usable, names, norm, name);
    i :| i < |Unmatched(usable, names, norm)| && Unmatched(usable, names, norm)[i] == name;
  }

  /** Main result: no header goes to two Variables. */
  lemma OneVariablePerHeader(usable: seq<string>, names: seq<string>, norm: Norm, a: string, b: string)
    requires a in names && b in names && a != b
    requires Entry(usable, names, norm, a).header.Some? && Entry(usable, names, norm, b).header.Some?
    ensures Entry(usable, names, norm, a).header != Entry(usable, names, norm, b).header
  {
    var exactA, exactB := Exact(usable, names, norm, a), Exact(usable, names, norm, b);
    if exactA.Some? {
      ExactHas(usable, names, norm, a);
    }
    if exactB.Some? {
      ExactHas(usable, names, norm, b);
    }
    if exactA.None? {
      var i := IndexOfUnmatched(usable, names, norm, a);
      SuggestionHas(Remaining(usable, names, norm), Unmatched(usable, names, norm), norm, i);
      RemainingCounts(usable, names, norm, Entry(usable, names, norm, a).header.value);
      if exactB.None? {
        var j := IndexOfUnmatched(usable, names, norm, b);
        SuggestionHas(Remaining(usable, names, norm), Unmatched(usable, names, norm), norm, j);
      }
    } else if exactB.None? {
      var j := IndexOfUnmatched(usable, names, norm, b);
      SuggestionHas(Remaining(usable, names, norm), Unmatched(usable, names, norm), norm, j);
      RemainingCounts(usable, names, norm, Entry(usable, names, norm, b).header.value);
    }
  }

  // ------------------------------------------------------------- the whole file

  function Mapping(usable: seq<string>, names: seq<string>, norm: Norm): seq<MappingEntry> {
    seq(|names|, i requires 0 <= i < |names| => Entry(usable, names, norm, names[i]))
  }

  function AssignedOf(mapping: seq<MappingEntry>): seq<string> {
    if mapping == [] then []
    else
      var last := mapping[|mapping| - 1];
      AssignedOf(mapping[..|mapping| - 1]) + if last.header.Some? then [last.header.value] else []
  }

  function Ignored(usable: seq<string>, mapping: seq<MappingEntry>): seq<string> {
    Others(usable, (set h | h in AssignedOf(mapping)))
  }

  ghost predicate HasHeader(mapping: seq<MappingEntry>, x: string) {
    exists i :: 0 <= i < |mapping| && mapping[i].header == Some(x)
  }

  ghost predicate HeadersDiffer(mapping: seq<MappingEntry>) {
    forall i, j :: 0 <= i < j < |mapping| && mapping[i].header.Some? ==> mapping[i].header != mapping[j].header
  }

  lemma LastHeader(mapping: seq<MappingEntry>, x: string)
    requires mapping != [] && HeadersDiffer(mapping)
    ensures var init, last := mapping[..|mapping| - 1], mapping[|mapping| - 1];
            && HeadersDiffer(init)
            && (HasHeader(mapping, x) <==> HasHeader(init, x) || last.header == Some(x))
            && !(HasHeader(init, x) && last.header == Some(x))
  {
    var k := |mapping| - 1;
    var init := mapping[..k];
    if HasHeader(mapping, x) && mapping[k].header != Some(x) {
      var i :| 0 <= i < |mapping| && mapping[i].header == Some(x);
      assert init[i].header == Some(x);
    }
  }

  lemma {:induction false} AssignedMembers(mapping: seq<MappingEntry>, x: string)
    requires HeadersDiffer(mapping)
    ensures multiset(AssignedOf(mapping))[x] == if HasHeader(mapping, x) then 1 else 0
  {
    assert mapping == [] ==> !HasHeader(mapping, x);
    hide HasHeader, HeadersDiffer;
    if mapping != [] {
      var k := |mapping| - 1;
      LastHeader(mapping, x);
      AssignedMembers(mapping[..k], x);
    }
  }

  lemma MappingHeadersDiffer(usable: seq<string>, names: seq<string>, norm: Norm)
    requires Distinct(names)
    ensures var m := Mapping(usable, names, norm);
            HeadersDiffer(m)
  {
    var m := Mapping(usable, names, norm);
    forall i, j | 0 <= i < j < |m| && m[i].header.Some?
      ensures m[i].header != m[j].header
    {
      if m[j].header.Some? {
        OneVariablePerHeader(usable, names, norm, names[i], names[j]);
      }
    }
  }

  lemma AssignedCount(usable: seq<string>, names: seq<string>, norm: Norm, x: string)
    requires Distinct(names)
    ensures var given := AssignedOf(Mapping(usable, names, norm));
            (if x in given then multiset(given)[x] == multiset(usable)[x] == 1 else multiset(given)[x] == 0)
  {
    hide Entry;
    var m := Mapping(usable, names, norm);
    MappingHeadersDiffer(usable, names, norm);
    AssignedMembers(m, x);
    assert x in AssignedOf(m) <==> multiset(AssignedOf(m))[x] > 0;
    if x in AssignedOf(m) {
      var i :| 0 <= i < |m| && m[i].header == Some(x);
      AssignedOnce(usable, names, norm, names[i]);
    }
  }

  /** Main result: the columns of the file are exactly the dropped, the assigned and the ignored ones,
      each as often as it occurs; no assigned or ignored column has a secret Variable's name. */
  lemma ColumnsAreConserved(headers: seq<string>, secrets: set<string>, names: seq<string>, norm: Norm)
    requires Distinct(names)
    ensures var usable := Usable(headers, secrets, norm);
            var m := Mapping(usable, names, norm);
            && multiset(headers) ==
               multiset(Dropped(headers, secrets, norm)) + multiset(AssignedOf(m)) + multiset(Ignored(usable, m))
            && (forall h :: h in AssignedOf(m) || h in Ignored(usable, m) ==> norm(h) !in secrets)
  {
    var usable := Usable(headers, secrets, norm);
    var m := Mapping(usable, names, norm);
    var dropped, given, ignored := Dropped(headers, secrets, norm), AssignedOf(m), Ignored(usable, m);
    hide Mapping, AssignedOf, Others;
    forall x
      ensures multiset(headers)[x] == multiset(dropped)[x] + multiset(given)[x] + multiset(ignored)[x]
      ensures x in given || x in ignored ==> norm(x) !in secrets
    {
      FilterCounts(headers, h => norm(h) !in secrets, x);
      FilterCounts(headers, h => norm(h) in secrets, x);
      OthersCounts(usable, (set h | h in given), x);
      AssignedCount(usable, names, norm, x);
    }
  }

  // ------------------------------------------------------------ order plays no part

  function NearNames(names: seq<string>, norm: Norm, header: string): seq<string> {
    Filter(names, name => Near(norm(header), norm(name)))
  }

  lemma OneMoreTimes(often: nat, times: nat)
    ensures often * (times + 1) == often * times + often
  {
  }

  lemma {:induction false} ClaimsClosedForm(headers: seq<string>, names: seq<string>, norm: Norm, header: string)
    ensures Claims(headers, names, norm, header) == multiset(headers)[header] * |NearNames(names, norm, header)|
  {
    if names != [] {
      hide NearHeaders, NearNames, Near;
      var k := |names| - 1;
      ClaimsClosedForm(headers, names[..k], norm, header);
      NearCounts(headers, norm, names[k], header);
      NearNamesStep(names, norm, header);
      OneMoreTimes(multiset(headers)[header], |NearNames(names[..k], norm, header)|);
    }
  }

  lemma NearNamesStep(names: seq<string>, norm: Norm, header: string)
    requires names != []
    ensures var k := |names| - 1;
            |NearNames(names, norm, header)| ==
            |NearNames(names[..k], norm, header)| + if Near(norm(header), norm(names[k])) then 1 else 0
  {
  }

  lemma NearNamesCounts(names: seq<string>, norm: Norm, header: string, x: string)
    ensures multiset(NearNames(names, norm, header))[x] == if Near(norm(header), norm(x)) then multiset(names)[x] else 0
  {
    FilterCounts(names, name => Near(norm(header), norm(name)), x);
  }

  lemma SameLength(a: seq<string>, b: seq<string>)
    requires multiset(a) == multiset(b)
    ensures |a| == |b|
    ensures |a| == 1 ==> a == b
  {
    assert |multiset(a)| == |a| && |multiset(b)| == |b|;
    if |a| == 1 {
      assert a == [a[0]] && b == [b[0]];
      assert a[0] in multiset(b);
    }
  }

  lemma ExactIgnoresOrder(u1: seq<string>, u2: seq<string>, n1: seq<string>, n2: seq<string>, norm: Norm, name: string)
    requires multiset(u1) == multiset(u2) && multiset(n1) == multiset(n2)
    ensures Exact(u1, n1, norm, name) == Exact(u2, n2, norm, name)
  {
    AlikeIgnoresOrder(u1, u2, norm, norm(name));
    var hits := Alike(u1, norm, norm(name));
    SameLength(hits, Alike(u2, norm, norm(name)));
    if |hits| == 1 {
      AlikeIgnoresOrder(n1, n2, norm, norm(hits[0]));
      SameLength(Alike(n1, norm, norm(hits[0])), Alike(n2, norm, norm(hits[0])));
    }
  }

  lemma AlikeIgnoresOrder(a: seq<string>, b: seq<string>, norm: Norm, key: string)
    requires multiset(a) == multiset(b)
    ensures multiset(Alike(a, norm, key)) == multiset(Alike(b, norm, key))
  {
    forall x
      ensures multiset(Alike(a, norm, key))[x] == multiset(Alike(b, norm, key))[x]
    {
      AlikeCounts(a, norm, key, x);
      AlikeCounts(b, norm, key, x);
    }
  }

  lemma SuggestionIgnoresOrder(h1: seq<string>, h2: seq<string>, n1: seq<string>, n2: seq<string>, norm: Norm,
                               name: string)
    requires multiset(h1) == multiset(h2) && multiset(n1) == multiset(n2)
    ensures Suggestion(h1, n1, norm, name) == Suggestion(h2, n2, norm, name)
  {
    forall x
      ensures multiset(Unclaimed(h1, n1, norm, name))[x] == multiset(Unclaimed(h2, n2, norm, name))[x]
    {
      UnclaimedCounts(h1, n1, norm, name, x);
      UnclaimedCounts(h2, n2, norm, name, x);
      NearCounts(h1, norm, name, x);
      NearCounts(h2, norm, name, x);
      ClaimsClosedForm(h1, n1, norm, x);
      ClaimsClosedForm(h2, n2, norm, x);
      NearNamesIgnoreOrder(n1, n2, norm, x);
    }
    SameLength(Unclaimed(h1, n1, norm, name), Unclaimed(h2, n2, norm, name));
  }

  lemma NearNamesIgnoreOrder(n1: seq<string>, n2: seq<string>, norm: Norm, header: string)
    requires multiset(n1) == multiset(n2)
    ensures |NearNames(n1, norm, header)| == |NearNames(n2, norm, header)|
  {
    forall x
      ensures multiset(NearNames(n1, norm, header))[x] == multiset(NearNames(n2, norm, header))[x]
    {
      NearNamesCounts(n1, norm, header, x);
      NearNamesCounts(n2, norm, header, x);
    }
    SameLength(NearNames(n1, norm, header), NearNames(n2, norm, header));
  }

  /** The header occurs once, is near the Variable `i`, and near no other. */
  ghost predicate SoleClaim(headers: seq<string>, names: seq<string>, norm: Norm, i: nat, h: string)
    requires i < |names|
  {
    && multiset(headers)[h] == 1 && Near(norm(h), norm(names[i]))
    && forall j :: 0 <= j < |names| && j != i ==> !Near(norm(h), norm(names[j]))
  }

  lemma {:induction false} NearNamesNone(names: seq<string>, norm: Norm, h: string)
    requires forall j :: 0 <= j < |names| ==> !Near(norm(h), norm(names[j]))
    ensures NearNames(names, norm, h) == []
  {
    hide Near;
    if names != [] {
      NearNamesNone(names[..|names| - 1], norm, h);
    }
  }

  lemma {:induction false} NearNamesOne(names: seq<string>, norm: Norm, i: nat, h: string)
    requires i < |names| && Near(norm(h), norm(names[i]))
    requires forall j :: 0 <= j < |names| && j != i ==> !Near(norm(h), norm(names[j]))
    ensures |NearNames(names, norm, h)| == 1
  {
    hide Near;
    var k := |names| - 1;
    if i == k {
      NearNamesNone(names[..k], norm, h);
    } else {
      assert names[..k][i] == names[i];
      NearNamesOne(names[..k], norm, i, h);
    }
  }

  lemma SoleClaimCounts(headers: seq<string>, names: seq<string>, norm: Norm, i: nat, h: string)
    requires i < |names| && SoleClaim(headers, names, norm, i, h)
    ensures Claims(headers, names, norm, h) == 1
  {
    hide Near, Claims, NearNames;
    ClaimsClosedForm(headers, names, norm, h);
    NearNamesOne(names, norm, i, h);
  }

  /** Two near Variables claim a header twice. */
  lemma ClaimedTwice(headers: seq<string>, names: seq<string>, norm: Norm, i: nat, j: nat, h: string)
    requires i < |names| && j < |names| && i != j
    requires Near(norm(h), norm(names[i])) && Near(norm(h), norm(names[j]))
    ensures Claims(headers, names, norm, h) >= 2 * multiset(headers)[h]
  {
    hide Near, Claims, NearHeaders;
    NearCounts(headers, norm, names[i], h);
    NearCounts(headers, norm, names[j], h);
    if i < j {
      ClaimsOfTwo(headers, names, norm, h, i, j);
    } else {
      ClaimsOfTwo(headers, names, norm, h, j, i);
    }
  }

  lemma ClaimedOnceIsSole(headers: seq<string>, names: seq<string>, norm: Norm, i: nat, h: string)
    requires i < |names| && h in headers && Near(norm(h), norm(names[i])) && Claims(headers, names, norm, h) == 1
    ensures SoleClaim(headers, names, norm, i, h)
  {
    hide Near, Claims, NearHeaders;
    ClaimsAtLeast(headers, names, norm, h, i);
    NearCounts(headers, norm, names[i], h);
    assert multiset(headers)[h] >= 1;
    forall j | 0 <= j < |names| && j != i
      ensures !Near(norm(h), norm(names[j]))
    {
      if Near(norm(h), norm(names[j])) {
        ClaimedTwice(headers, names, norm, i, j, h);
      }
    }
  }

  lemma UnclaimedMeans(headers: seq<string>, names: seq<string>, norm: Norm, i: nat, h: string)
    requires i < |names|
    ensures h in Unclaimed(headers, names, norm, names[i]) <==> SoleClaim(headers, names, norm, i, h)
    ensures multiset(Unclaimed(headers, names, norm, names[i]))[h] <= 1
  {
    hide Near, Claims, Unclaimed, NearHeaders;
    UnclaimedCounts(headers, names, norm, names[i], h);
    NearCounts(headers, norm, names[i], h);
    if Claims(headers, names, norm, h) == 1 {
      ClaimsAtLeast(headers, names, norm, h, i);
      if h in headers && Near(norm(h), norm(names[i])) {
        ClaimedOnceIsSole(headers, names, norm, i, h);
      }
    }
    if SoleClaim(headers, names, norm, i, h) {
      SoleClaimCounts(headers, names, norm, i, h);
    }
  }

  /** A header is suggested for a Variable if and only if it is the one header that has a sole claim. */
  lemma SuggestionMeans(headers: seq<string>, names: seq<string>, norm: Norm, i: nat, h: string)
    requires i < |names|
    ensures Suggestion(headers, names, norm, names[i]) == Some(h) <==>
            && SoleClaim(headers, names, norm, i, h)
            && forall x :: SoleClaim(headers, names, norm, i, x) ==> x == h
  {
    var unique := Unclaimed(headers, names, norm, names[i]);
    forall x
      ensures x in unique <==> SoleClaim(headers, names, norm, i, x)
    {
      UnclaimedMeans(headers, names, norm, i, x);
    }
    UnclaimedMeans(headers, names, norm, i, h);
    SingleMember(unique, h);
    assert h in unique <==> multiset(unique)[h] > 0;
    assert |unique| == 1 && unique[0] == h ==> unique == [h];
  }

  /** Main result: what a Variable is matched to depends neither on the order of the columns nor
      on the order of the Variables. */
  lemma MatchingIgnoresOrder(h1: seq<string>, h2: seq<string>, n1: seq<string>, n2: seq<string>,
                             secrets: set<string>, norm: Norm, name: string)
    requires multiset(h1) == multiset(h2) && multiset(n1) == multiset(n2)
    ensures Entry(Usable(h1, secrets, norm), n1, norm, name) == Entry(Usable(h2, secrets, norm), n2, norm, name)
  {
    UsableIgnoresOrder(h1, h2, secrets, norm);
    var u1, u2 := Usable(h1, secrets, norm), Usable(h2, secrets, norm);
    hide Usable, Entry;
    LeftIgnoresOrder(u1, u2, n1, n2, norm);
    hide Exact, Remaining, Unmatched, Taken;
    EntryIgnoresOrder(u1, u2, n1, n2, norm, name);
  }

  lemma UsableIgnoresOrder(h1: seq<string>, h2: seq<string>, secrets: set<string>, norm: Norm)
    requires multiset(h1) == multiset(h2)
    ensures multiset(Usable(h1, secrets, norm)) == multiset(Usable(h2, secrets, norm))
  {
    forall x
      ensures multiset(Usable(h1, secrets, norm))[x] == multiset(Usable(h2, secrets, norm))[x]
    {
      FilterCounts(h1, h => norm(h) !in secrets, x);
      FilterCounts(h2, h => norm(h) !in secrets, x);
    }
  }

  lemma EntryIgnoresOrder(u1: seq<string>, u2: seq<string>, n1: seq<string>, n2: seq<string>, norm: Norm, name: string)
    requires multiset(u1) == multiset(u2) && multiset(n1) == multiset(n2)
    requires multiset(Remaining(u1, n1, norm)) == multiset(Remaining(u2, n2, norm))
    requires multiset(Unmatched(u1, n1, norm)) == multiset(Unmatched(u2, n2, norm))
    ensures Entry(u1, n1, norm, name) == Entry(u2, n2, norm, name)
  {
    hide Exact, Remaining, Unmatched;
    ExactIgnoresOrder(u1, u2, n1, n2, norm, name);
    SuggestionIgnoresOrder(Remaining(u1, n1, norm), Remaining(u2, n2, norm),
                           Unmatched(u1, n1, norm), Unmatched(u2, n2, norm), norm, name);
  }

  /** What the exact matches leave over is the same, whatever the order. */
  lemma LeftIgnoresOrder(u1: seq<string>, u2: seq<string>, n1: seq<string>, n2: seq<string>, norm: Norm)
    requires multiset(u1) == multiset(u2) && multiset(n1) == multiset(n2)
    ensures multiset(Remaining(u1, n1, norm)) == multiset(Remaining(u2, n2, norm))
    ensures multiset(Unmatched(u1, n1, norm)) == multiset(Unmatched(u2, n2, norm))
  {
    forall x
      ensures Exact(u1, n1, norm, x) == Exact(u2, n2, norm, x)
      ensures x in n1 <==> x in n2
    {
      ExactIgnoresOrder(u1, u2, n1, n2, norm, x);
      assert x in n1 <==> x in multiset(n1);
      assert x in n2 <==> x in multiset(n2);
    }
    assert Taken(u1, n1, norm) == Taken(u2, n2, norm);
    forall x
      ensures multiset(Remaining(u1, n1, norm))[x] == multiset(Remaining(u2, n2, norm))[x]
      ensures multiset(Unmatched(u1, n1, norm))[x] == multiset(Unmatched(u2, n2, norm))[x]
    {
      RemainingCounts(u1, n1, norm, x);
      RemainingCounts(u2, n2, norm, x);
      UnmatchedCounts(u1, n1, norm, x);
      UnmatchedCounts(u2, n2, norm, x);
    }
  }

  /** When every Variable has its exact header, no header is like two Variables, so the second
      half of the confidence test never decides anything. */
  lemma CoverageIsConfidence(usable: seq<string>, names: seq<string>, norm: Norm, header: string)
    requires EveryCovered(usable, names, norm)
    ensures |Alike(names, norm, norm(header))| <= 1
  {
    var sharers := Alike(names, norm, norm(header));
    if |sharers| > 1 {
      var name := sharers[0];
      AlikeCounts(names, norm, norm(header), name);
      var h := Exact(usable, names, norm, name).value;
      AlikeCounts(usable, norm, norm(name), h);
    }
  }

  // -------------------------------------------------------------- the algorithm

  method SplitSecrets(headers: seq<string>, secrets: set<string>, norm: Norm)
    returns (dropped: seq<string>, usable: seq<string>)
    ensures dropped == Dropped(headers, secrets, norm) && usable == Usable(headers, secrets, norm)
  {
    dropped, usable := [], [];
    for i := 0 to |headers|
      invariant dropped == Dropped(headers[..i], secrets, norm)
      invariant usable == Usable(headers[..i], secrets, norm)
    {
      assert headers[..i + 1][..i] == headers[..i];
      if norm(headers[i]) in secrets {
        dropped := dropped + [headers[i]];
      } else {
        usable := usable + [headers[i]];
      }
    }
    assert headers[..|headers|] == headers;
  }

  /** Which headers each Variable claims, and which Variables claim each header. */
  method ExactClaims(usable: seq<string>, names: seq<string>, norm: Norm)
    returns (byVariable: map<string, seq<string>>, byHeader: map<string, seq<string>>)
    requires Distinct(names)
    ensures forall name :: name in names ==> name in byVariable && byVariable[name] == Alike(usable, norm, norm(name))
    ensures forall h :: h in usable ==> h in byHeader && byHeader[h] == Alike(names, norm, norm(h))
  {
    byVariable := map[];
    for k := 0 to |names|
      invariant forall j :: 0 <= j < k ==> names[j] in byVariable && byVariable[names[j]] == []
    {
      byVariable := byVariable[names[k] := []];
    }
    assert usable[..0] == [];
    byHeader := map[];
    for i := 0 to |usable|
      invariant forall j :: 0 <= j < |names| ==>
                  names[j] in byVariable && byVariable[names[j]] == Alike(usable[..i], norm, norm(names[j]))
      invariant forall j :: 0 <= j < i ==>
                  usable[j] in byHeader && byHeader[usable[j]] == Alike(names, norm, norm(usable[j]))
    {
      var claimed;
      claimed, byVariable := ClaimHeader(usable, i, names, norm, byVariable);
      byHeader := byHeader[usable[i] := claimed];
    }
    assert usable[..|usable|] == usable;
  }

  /** One header against every Variable. */
  method ClaimHeader(usable: seq<string>, i: nat, names: seq<string>, norm: Norm, before: map<string, seq<string>>)
    returns (claimed: seq<string>, byVariable: map<string, seq<string>>)
    requires Distinct(names) && i < |usable|
    requires forall j :: 0 <= j < |names| ==>
               names[j] in before && before[names[j]] == Alike(usable[..i], norm, norm(names[j]))
    ensures claimed == Alike(names, norm, norm(usable[i]))
    ensures forall j :: 0 <= j < |names| ==>
              names[j] in byVariable && byVariable[names[j]] == Alike(usable[..i + 1], norm, norm(names[j]))
  {
    byVariable := before;
    claimed := [];
    var key := norm(usable[i]);
    for k := 0 to |names|
      invariant claimed == Alike(names[..k], norm, key)
      invariant forall j :: 0 <= j < |names| ==>
                  names[j] in byVariable &&
                  byVariable[names[j]] == Alike(usable[..if j < k then i + 1 else i], norm, norm(names[j]))
    {
      AlikeStep(names, norm, key, k);
      AlikeStep(usable, norm, norm(names[k]), i);
      if norm(names[k]) == key {
        claimed := claimed + [names[k]];
        byVariable := byVariable[names[k] := byVariable[names[k]] + [usable[i]]];
      }
    }
    assert names[..|names|] == names;
  }

  lemma AlikeStep(s: seq<string>, norm: Norm, key: string, i: nat)
    requires i < |s|
    ensures Alike(s[..i + 1], norm, key) == Alike(s[..i], norm, key) + if norm(s[i]) == key then [s[i]] else []
  {
    assert s[..i + 1][..i] == s[..i];
  }

  /** The exact matches nobody disputes. */
  method UniqueExact(usable: seq<string>, names: seq<string>, norm: Norm,
                     byVariable: map<string, seq<string>>, byHeader: map<string, seq<string>>)
    returns (unique: map<string, string>)
    requires forall name :: name in names ==> name in byVariable && byVariable[name] == Alike(usable, norm, norm(name))
    requires forall h :: h in usable ==> h in byHeader && byHeader[h] == Alike(names, norm, norm(h))
    ensures IsExactMap(unique, usable, names, norm)
  {
    hide Alike;
    unique := map[];
    for k := 0 to |names|
      invariant IsExactMap(unique, usable, names, norm, k)
    {
      var name := names[k];
      var matches := byVariable[name];
      if |matches| == 1 {
        AlikeMembers(usable, norm, norm(name), matches[0]);
        var sharers := byHeader[matches[0]];
        if |sharers| == 1 {
          unique := unique[name := matches[0]];
        }
      }
    }
  }

  ghost predicate IsExactMap(unique: map<string, string>, usable: seq<string>, names: seq<string>, norm: Norm,
                             k: nat := |names|)
    requires k <= |names|
  {
    && (forall name :: name in unique ==> name in names[..k])
    && (forall name :: name in names[..k] ==>
          if Exact(usable, names, norm, name).Some?
          then name in unique && unique[name] == Exact(usable, names, norm, name).value
          else name !in unique)
  }

  /** Every Variable covered and no header claimed twice. */
  method Confidence(usable: seq<string>, names: seq<string>, norm: Norm, byHeader: map<string, seq<string>>,
                    unique: map<string, string>)
    returns (confident: bool)
    requires forall h :: h in usable ==> h in byHeader && byHeader[h] == Alike(names, norm, norm(h))
    requires IsExactMap(unique, usable, names, norm)
    ensures confident <==> EveryCovered(usable, names, norm)
  {
    hide Alike;
    var headerClaimsTwo := false;
    for i := 0 to |usable|
      invariant headerClaimsTwo <==> exists j :: 0 <= j < i && |Alike(names, norm, norm(usable[j]))| > 1
    {
      if |byHeader[usable[i]]| > 1 {
        headerClaimsTwo := true;
      }
    }
    assert names[..|names|] == names;
    var everyCovered := forall name | name in names :: name in unique;
    assert everyCovered <==> EveryCovered(usable, names, norm);
    if everyCovered && headerClaimsTwo {
      var j :| 0 <= j < |usable| && |Alike(names, norm, norm(usable[j]))| > 1;
      CoverageIsConfidence(usable, names, norm, usable[j]);
    }
    confident := everyCovered && !headerClaimsTwo;
  }

  /** The exact matches as a mapping. */
  function ExactMapping(names: seq<string>, unique: map<string, string>): (mapping: seq<MappingEntry>)
    ensures |mapping| == |names|
  {
    seq(|names|, i requires 0 <= i < |names| =>
      MappingEntry(names[i], if names[i] in unique then Some(unique[names[i]]) else None, false))
  }

  lemma ExactMappingMeans(usable: seq<string>, names: seq<string>, norm: Norm, unique: map<string, string>)
    requires IsExactMap(unique, usable, names, norm)
    ensures forall i :: 0 <= i < |names| ==>
              ExactMapping(names, unique)[i] == MappingEntry(names[i], Exact(usable, names, norm, names[i]), false)
    ensures EveryCovered(usable, names, norm) ==> ExactMapping(names, unique) == Mapping(usable, names, norm)
  {
    assert names[..|names|] == names;
    forall i | 0 <= i < |names|
      ensures ExactMapping(names, unique)[i] == MappingEntry(names[i], Exact(usable, names, norm, names[i]), false)
      ensures EveryCovered(usable, names, norm) ==>
                ExactMapping(names, unique)[i] == Entry(usable, names, norm, names[i])
    {
      assert names[i] in names[..|names|];
    }
  }

  method MatchColumns(usable: seq<string>, names: seq<string>, norm: Norm)
    returns (confident: bool, mapping: seq<MappingEntry>)
    requires Distinct(names)
    ensures mapping == Mapping(usable, names, norm)
    ensures confident <==> EveryCovered(usable, names, norm)
  {
    hide Alike, Exact, EveryCovered, IsExactMap, ExactMapping, Mapping;
    var byVariable, byHeader := ExactClaims(usable, names, norm);
    var unique := UniqueExact(usable, names, norm, byVariable, byHeader);
    confident := Confidence(usable, names, norm, byHeader, unique);
    mapping := ExactMapping(names, unique);
    ExactMappingMeans(usable, names, norm, unique);
    if !confident {
      mapping := SuggestRest(usable, names, norm, unique);
    }
  }

  /** The header is like the name of a secret Variable. */
  ghost predicate LikeSecret(variables: seq<Variable>, norm: Norm, h: string) {
    exists v :: v in variables && v.secret && norm(v.name) == norm(h)
  }

  /** These are the places of the Variables that are not secret, in order. */
  ghost predicate PlainPlaces(variables: seq<Variable>, places: seq<nat>) {
    && (forall i :: 0 <= i < |places| ==> places[i] < |variables| && !variables[places[i]].secret)
    && (forall i, j :: 0 <= i < j < |places| ==> places[i] < places[j])
    && forall p: nat :: p < |variables| && !variables[p].secret ==> p in places
  }

  function Places(variables: seq<Variable>): seq<nat> {
    if variables == [] then []
    else
      var k := |variables| - 1;
      Places(variables[..k]) + if variables[k].secret then [] else [k]
  }

  lemma {:induction false} PlaceOfName(variables: seq<Variable>, i: nat)
    requires i < |Places(variables)|
    ensures |Places(variables)| == |PlainNames(variables)|
    ensures var p := Places(variables)[i];
            p < |variables| && !variables[p].secret && PlainNames(variables)[i] == variables[p].name
  {
    var k := |variables| - 1;
    SameCount(variables[..k]);
    if i < |Places(variables[..k])| {
      PlaceOfName(variables[..k], i);
    }
  }

  lemma {:induction false} SameCount(variables: seq<Variable>)
    ensures |Places(variables)| == |PlainNames(variables)|
  {
    if variables != [] {
      SameCount(variables[..|variables| - 1]);
    }
  }

  lemma {:induction false} PlacesRise(variables: seq<Variable>, i: nat, j: nat)
    requires i < j < |Places(variables)|
    ensures Places(variables)[i] < Places(variables)[j]
  {
    var k := |variables| - 1;
    var init := variables[..k];
    if j < |Places(init)| {
      PlacesRise(init, i, j);
    } else {
      PlaceOfName(init, i);
    }
  }

  lemma {:induction false} PlaceFound(variables: seq<Variable>, p: nat)
    requires p < |variables| && !variables[p].secret
    ensures p in Places(variables)
  {
    var k := |variables| - 1;
    if p < k {
      assert variables[..k][p] == variables[p];
      PlaceFound(variables[..k], p);
    }
  }

  lemma PlacesOfPlainNames(variables: seq<Variable>)
    ensures PlainPlaces(variables, Places(variables)) && |Places(variables)| == |PlainNames(variables)|
    ensures forall i :: 0 <= i < |Places(variables)| ==>
              PlainNames(variables)[i] == variables[Places(variables)[i]].name
  {
    var places := Places(variables);
    SameCount(variables);
    forall i | 0 <= i < |places|
      ensures places[i] < |variables| && !variables[places[i]].secret
      ensures PlainNames(variables)[i] == variables[places[i]].name
    {
      PlaceOfName(variables, i);
    }
    hide Places, PlainNames;
    forall i, j | 0 <= i < j < |places|
      ensures places[i] < places[j]
    {
      PlacesRise(variables, i, j);
    }
    forall p: nat | p < |variables| && !variables[p].secret
      ensures p in places
    {
      PlaceFound(variables, p);
    }
  }

  lemma SecretFormsMean(variables: seq<Variable>, norm: Norm, h: string)
    ensures norm(h) in SecretForms(variables, norm) <==> LikeSecret(variables, norm, h)
  {
  }

  /** Every column is accounted for: the dropped ones are those like a secret Variable, and the others
      are assigned or ignored, each as often as it occurs. */
  ghost predicate ColumnsAccounted(headers: seq<string>, variables: seq<Variable>, norm: Norm, r: Reconciled) {
    && (forall h :: h in r.droppedSecretHeaders <==> h in headers && LikeSecret(variables, norm, h))
    && (forall h :: h in AssignedOf(r.mapping) || h in r.ignoredHeaders ==> !LikeSecret(variables, norm, h))
    && multiset(headers) ==
       multiset(r.droppedSecretHeaders) + multiset(AssignedOf(r.mapping)) + multiset(r.ignoredHeaders)
  }

  lemma DroppedMeans(headers: seq<string>, variables: seq<Variable>, norm: Norm, h: string)
    ensures h in Dropped(headers, SecretForms(variables, norm), norm) <==>
              h in headers && LikeSecret(variables, norm, h)
    ensures norm(h) !in SecretForms(variables, norm) <==> !LikeSecret(variables, norm, h)
  {
    hide SecretForms, LikeSecret;
    var secrets := SecretForms(variables, norm);
    SecretFormsMean(variables, norm, h);
    FilterCounts(headers, x => norm(x) in secrets, h);
  }

  lemma ColumnsMean(headers: seq<string>, variables: seq<Variable>, names: seq<string>, norm: Norm, r: Reconciled)
    requires Distinct(names)
    requires var secrets := SecretForms(variables, norm);
             var usable := Usable(headers, secrets, norm);
             && r.mapping == Mapping(usable, names, norm) && r.ignoredHeaders == Ignored(usable, r.mapping)
             && r.droppedSecretHeaders == Dropped(headers, secrets, norm)
    ensures ColumnsAccounted(headers, variables, norm, r)
  {
    var secrets := SecretForms(variables, norm);
    hide AssignedOf, Ignored, Mapping, SecretForms, LikeSecret, Usable, Dropped, Distinct;
    ColumnsAreConserved(headers, secrets, names, norm);
    forall h
      ensures h in r.droppedSecretHeaders <==> h in headers && LikeSecret(variables, norm, h)
      ensures norm(h) !in secrets ==> !LikeSecret(variables, norm, h)
    {
      DroppedMeans(headers, variables, norm, h);
    }
  }

  /** The mapping has one entry for each Variable that is not secret, in order. */
  ghost predicate EntriesInOrder(variables: seq<Variable>, mapping: seq<MappingEntry>) {
    exists places: seq<nat> ::
      && PlainPlaces(variables, places) && |places| == |mapping|
      && forall i :: 0 <= i < |places| ==> mapping[i].variableName == variables[places[i]].name
  }

  lemma EntriesAreInOrder(variables: seq<Variable>, usable: seq<string>, norm: Norm)
    ensures EntriesInOrder(variables, Mapping(usable, PlainNames(variables), norm))
  {
    hide PlainNames, Entry, Places;
    var names := PlainNames(variables);
    var places := Places(variables);
    PlacesOfPlainNames(variables);
    var mapping := Mapping(usable, names, norm);
    forall i | 0 <= i < |places|
      ensures mapping[i].variableName == variables[places[i]].name
    {
      EntryMeans(usable, names, norm, names[i]);
    }
  }

  /** The exact entries are the mutual matches, and confidence is that all entries are exact. */
  ghost predicate ExactAreMutual(usable: seq<string>, names: seq<string>, norm: Norm, r: Reconciled) {
    && (forall i, h :: 0 <= i < |r.mapping| ==>
          (r.mapping[i].header == Some(h) && !r.mapping[i].suggested <==>
           Mutual(usable, names, norm, r.mapping[i].variableName, h)))
    && (r.confident <==> forall i :: 0 <= i < |r.mapping| ==> r.mapping[i].header.Some? && !r.mapping[i].suggested)
  }

  /** What happens to one Variable: its exact match is the mutual one, if there is one. */
  lemma ExactEntryMeans(usable: seq<string>, names: seq<string>, norm: Norm, name: string)
    requires name in names
    ensures var entry := Entry(usable, names, norm, name);
            && entry.variableName == name && (entry.suggested ==> entry.header.Some?)
            && (forall h :: entry.header == Some(h) && !entry.suggested <==> Mutual(usable, names, norm, name, h))
  {
    hide Exact, Suggestion, Mutual;
    forall h
      ensures Exact(usable, names, norm, name) == Some(h) <==> Mutual(usable, names, norm, name, h)
    {
      ExactMeans(usable, names, norm, name, h);
    }
  }

  lemma ExactIsConfident(usable: seq<string>, names: seq<string>, norm: Norm, m: seq<MappingEntry>)
    requires m == Mapping(usable, names, norm)
    ensures EveryCovered(usable, names, norm) <==> forall i :: 0 <= i < |m| ==> m[i].header.Some? && !m[i].suggested
    ensures |m| == |names| && forall i :: 0 <= i < |m| ==> m[i].variableName == names[i]
  {
    forall i | 0 <= i < |names|
      ensures m[i].header.Some? && !m[i].suggested <==> Exact(usable, names, norm, names[i]).Some?
      ensures m[i].variableName == names[i]
    {
      EntryMeans(usable, names, norm, names[i]);
    }
    hide Exact, Entry, Mapping;
    assert |m| == |names|;
    assert forall name :: name in names ==> exists i :: 0 <= i < |names| && names[i] == name;
  }

  lemma EntriesMean(usable: seq<string>, names: seq<string>, norm: Norm, r: Reconciled)
    requires r.mapping == Mapping(usable, names, norm) && (r.confident <==> EveryCovered(usable, names, norm))
    ensures ExactAreMutual(usable, names, norm, r)
  {
    ExactIsConfident(usable, names, norm, r.mapping);
    hide Mutual, Entry, EveryCovered;
    forall i, h | 0 <= i < |r.mapping|
      ensures r.mapping[i].header == Some(h) && !r.mapping[i].suggested <==>
              Mutual(usable, names, norm, r.mapping[i].variableName, h)
    {
      MappingAt(usable, names, norm, i);
      ExactEntryMeans(usable, names, norm, names[i]);
    }
  }

  lemma MappingAt(usable: seq<string>, names: seq<string>, norm: Norm, i: nat)
    requires i < |names|
    ensures |Mapping(usable, names, norm)| == |names|
    ensures Mapping(usable, names, norm)[i] == Entry(usable, names, norm, names[i])
  {
    hide Entry;
  }

  method Reconcile(headers: seq<string>, variables: seq<Variable>, norm: Norm) returns (r: Reconciled)
    requires Distinct(PlainNames(variables))
    ensures var names := PlainNames(variables);
            var usable := Usable(headers, SecretForms(variables, norm), norm);
            && r.mapping == Mapping(usable, names, norm)
            && (r.confident <==> EveryCovered(usable, names, norm))
            && r.ignoredHeaders == Ignored(usable, r.mapping)
            && r.droppedSecretHeaders == Dropped(headers, SecretForms(variables, norm), norm)
            && ExactAreMutual(usable, names, norm, r)
    ensures ColumnsAccounted(headers, variables, norm, r)
    ensures EntriesInOrder(variables, r.mapping)
  {
    hide Usable, Dropped, SecretForms, Mapping, Ignored, EveryCovered, PlainNames, ColumnsAccounted, EntriesInOrder,
      ExactAreMutual;
    var names := PlainNames(variables);
    var dropped, usable := SplitSecrets(headers, SecretForms(variables, norm), norm);
    var confident, mapping := MatchColumns(usable, names, norm);
    r := Reconciled(confident, mapping, Ignored(usable, mapping), dropped);
    ColumnsMean(headers, variables, names, norm, r);
    EntriesAreInOrder(variables, usable, norm);
    EntriesMean(usable, names, norm, r);
  }

  /** Near matches for the Variables without an exact one. */
  method SuggestRest(usable: seq<string>, names: seq<string>, norm: Norm, unique: map<string, string>)
    returns (mapping: seq<MappingEntry>)
    requires Distinct(names) && IsExactMap(unique, usable, names, norm)
    ensures mapping == Mapping(usable, names, norm)
  {
    hide Exact, Entry, IsExactMap, ExactMapping, NearHeaders, Others, Counts, Remaining, Unmatched, Near;
    TakenValues(unique, usable, names, norm);
    UnmatchedAreOthers(unique, usable, names, norm);
    ExactMappingMeans(usable, names, norm, unique);
    RemainingAreOthers(usable, names, norm);
    var remaining := Others(usable, unique.Values);
    var unmatched := Others(names, unique.Keys);
    var candidates := NearCandidates(remaining, unmatched, norm);
    var claimCount := CountClaims(remaining, unmatched, norm, candidates);
    mapping := ExactMapping(names, unique);
    ghost var start := mapping;
    for i := 0 to |names|
      invariant |mapping| == |start| == |names|
      invariant forall j :: 0 <= j < i ==> mapping[j] == Entry(usable, names, norm, names[j])
      invariant forall j :: i <= j < |names| ==> mapping[j] == start[j]
    {
      if mapping[i].header.None? {
        ghost var k := IndexOfUnmatched(usable, names, norm, names[i]);
        var entry := Suggest(usable, names, norm, remaining, unmatched, names[i], candidates[names[i]], claimCount);
        mapping := mapping[i := entry];
      } else {
        EntryMeans(usable, names, norm, names[i]);
      }
    }
  }

  lemma RemainingAreOthers(usable: seq<string>, names: seq<string>, norm: Norm)
    ensures Remaining(usable, names, norm) == Others(usable, Taken(usable, names, norm))
  {
  }

  /** The suggestion for one Variable without an exact match. */
  method Suggest(usable: seq<string>, names: seq<string>, norm: Norm, remaining: seq<string>, unmatched: seq<string>,
                 name: string, near: seq<string>, claimCount: map<string, nat>)
    returns (entry: MappingEntry)
    requires Exact(usable, names, norm, name).None?
    requires remaining == Remaining(usable, names, norm) && unmatched == Unmatched(usable, names, norm)
    requires near == NearHeaders(remaining, norm, name) && Counts(claimCount, remaining, unmatched, norm)
    ensures entry == Entry(usable, names, norm, name)
  {
    hide Exact, Entry, NearHeaders, Counts, Remaining, Unmatched, Near, Unclaimed;
    ClaimedOnceIsUnclaimed(remaining, unmatched, norm, name, claimCount);
    EntryMeans(usable, names, norm, name);
    var only := ClaimedOnce(near, claimCount);
    entry := if |only| == 1 then MappingEntry(name, Some(only[0]), true) else MappingEntry(name, None, false);
  }

  lemma EntryMeans(usable: seq<string>, names: seq<string>, norm: Norm, name: string)
    ensures var exact := Exact(usable, names, norm, name);
            var unique := Unclaimed(Remaining(usable, names, norm), Unmatched(usable, names, norm), norm, name);
            Entry(usable, names, norm, name) ==
            if exact.Some? then MappingEntry(name, exact, false)
            else if |unique| == 1 then MappingEntry(name, Some(unique[0]), true)
            else MappingEntry(name, None, false)
  {
  }

  method NearCandidates(remaining: seq<string>, unmatched: seq<string>, norm: Norm)
    returns (candidates: map<string, seq<string>>)
    ensures forall j :: 0 <= j < |unmatched| ==>
              unmatched[j] in candidates && candidates[unmatched[j]] == NearHeaders(remaining, norm, unmatched[j])
  {
    candidates := map[];
    for k := 0 to |unmatched|
      invariant forall j :: 0 <= j < k ==>
                  unmatched[j] in candidates && candidates[unmatched[j]] == NearHeaders(remaining, norm, unmatched[j])
    {
      candidates := candidates[unmatched[k] := NearHeaders(remaining, norm, unmatched[k])];
    }
  }

  function ClaimedOnce(near: seq<string>, claimCount: map<string, nat>): seq<string> {
    Filter(near, h => h in claimCount && claimCount[h] == 1)
  }

  lemma {:induction false} SameFilter(s: seq<string>, p: string -> bool, q: string -> bool)
    requires forall w :: w in s ==> p(w) == q(w)
    ensures Filter(s, p) == Filter(s, q)
  {
    if s != [] {
      SameFilter(s[..|s| - 1], p, q);
    }
  }

  /** `claimCount` holds the claims of every header that has any. */
  ghost predicate Counts(claimCount: map<string, nat>, headers: seq<string>, names: seq<string>, norm: Norm) {
    forall h :: (if h in claimCount then claimCount[h] else 0) == Claims(headers, names, norm, h)
  }

  lemma ClaimedOnceIsUnclaimed(headers: seq<string>, names: seq<string>, norm: Norm, name: string,
                               claimCount: map<string, nat>)
    requires Counts(claimCount, headers, names, norm)
    ensures ClaimedOnce(NearHeaders(headers, norm, name), claimCount) == Unclaimed(headers, names, norm, name)
  {
    SameFilter(NearHeaders(headers, norm, name), h => h in claimCount && claimCount[h] == 1,
               h => Claims(headers, names, norm, h) == 1);
  }

  /** The two nested loops over the candidates. */
  method CountClaims(headers: seq<string>, names: seq<string>, norm: Norm, candidates: map<string, seq<string>>)
    returns (claimCount: map<string, nat>)
    requires forall j :: 0 <= j < |names| ==>
               names[j] in candidates && candidates[names[j]] == NearHeaders(headers, norm, names[j])
    ensures Counts(claimCount, headers, names, norm)
  {
    claimCount := map[];
    for k := 0 to |names|
      invariant Counts(claimCount, headers, names[..k], norm)
    {
      assert names[..k + 1][..k] == names[..k];
      var near := candidates[names[k]];
      var before := claimCount;
      for i := 0 to |near|
        invariant forall h :: (if h in claimCount then claimCount[h] else 0) ==
                              (if h in before then before[h] else 0) + multiset(near[..i])[h]
      {
        assert near[..i + 1] == near[..i] + [near[i]];
        claimCount := claimCount[near[i] := (if near[i] in claimCount then claimCount[near[i]] else 0) + 1];
      }
      assert near[..|near|] == near;
    }
    assert names[..|names|] == names;
  }

  lemma UnmatchedAreOthers(unique: map<string, string>, usable: seq<string>, names: seq<string>, norm: Norm)
    requires IsExactMap(unique, usable, names, norm)
    ensures Others(names, unique.Keys) == Unmatched(usable, names, norm)
  {
    assert names[..|names|] == names;
    SameFilter(names, w => w !in unique.Keys, name => Exact(usable, names, norm, name).None?);
  }

  lemma TakenValues(unique: map<string, string>, usable: seq<string>, names: seq<string>, norm: Norm)
    requires IsExactMap(unique, usable, names, norm)
    ensures unique.Values == Taken(usable, names, norm)
  {
    assert names[..|names|] == names;
    forall h | h in Taken(usable, names, norm)
      ensures h in unique.Values
    {
      var name :| && name in names && Exact(usable, names, norm, name).Some?
                  && Exact(usable, names, norm, name).value == h;
      assert name in unique && unique[name] == h;
    }
  }
}

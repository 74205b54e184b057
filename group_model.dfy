/**
 * The group document (models/Group.js): the schema's fields with their
 * bounds and defaults, the start condition, and the instance methods that
 * edit the participant list and the per-month winner table of a loaded
 * document.
 */
module GroupModel {
  import opened Wrappers
  import opened Strings

  datatype Status = Waiting | Started | Completed

  function StatusName(s: Status): string
  {
    match s
    case Waiting => "waiting"
    case Started => "started"
    case Completed => "completed"
  }

  const MinPoolAmount := 1000
  const MinMonths := 1
  const MaxMonths := 12

  /** The schema's paths. Timestamps are milliseconds since the epoch; amounts are whole numbers. */
  datatype GroupRecord = GroupRecord(
    name: string,
    owner: string,
    totalPoolAmount: int,
    totalMonths: int,
    status: Status,
    shuffleDate: Option<int>,
    startDate: Option<int>,
    createdAt: int,
    currentMonth: int)

  /** What the schema's validators demand of a stored group (the enum is the datatype itself). */
  predicate SchemaValid(g: GroupRecord)
  {
    && g.name != "" && !IsJsSpace(g.name[0]) && !IsJsSpace(g.name[|g.name| - 1])
    && g.owner != ""
    && g.totalPoolAmount >= MinPoolAmount
    && MinMonths <= g.totalMonths <= MaxMonths
  }

  datatype GroupField = NameField | OwnerField | PoolField | MonthsField

  /** Every path whose validator rejects the values given (the name as stored, i.e. already trimmed). */
  function GroupErrors(name: string, owner: string, totalPoolAmount: int, totalMonths: int): (r: set<GroupField>)
    ensures NameField in r <==> name == ""
    ensures OwnerField in r <==> owner == ""
    ensures PoolField in r <==> totalPoolAmount < MinPoolAmount
    ensures MonthsField in r <==> !(MinMonths <= totalMonths <= MaxMonths)
  {
    (if name == "" then {NameField} else {})
    + (if owner == "" then {OwnerField} else {})
    + (if totalPoolAmount < MinPoolAmount then {PoolField} else {})
    + (if totalMonths < MinMonths || totalMonths > MaxMonths then {MonthsField} else {})
  }

  /**
   * `new Group({name, owner, totalPoolAmount, totalMonths}).save()`: the name
   * is trimmed, the defaults are filled in, and the validators either accept
   * the record or report every failing path.
   */
  function NewGroup(name: string, owner: string, totalPoolAmount: int, totalMonths: int, now: int): (r: Result<GroupRecord, set<GroupField>>)
    ensures r.Ok? <==> Trim(name) != "" && owner != "" && totalPoolAmount >= MinPoolAmount && MinMonths <= totalMonths <= MaxMonths
    ensures r.Ok? ==> SchemaValid(r.value)
    ensures r.Ok? ==> && r.value.status == Waiting && r.value.currentMonth == 0 && r.value.createdAt == now
                      && r.value.shuffleDate.None? && r.value.startDate.None?
                      && r.value.name == Trim(name) && r.value.owner == owner
                      && r.value.totalPoolAmount == totalPoolAmount && r.value.totalMonths == totalMonths
    ensures r.Err? ==> r.error == GroupErrors(Trim(name), owner, totalPoolAmount, totalMonths) && r.error != {}
  {
    var trimmed := Trim(name);
    var errors := GroupErrors(trimmed, owner, totalPoolAmount, totalMonths);
    if errors == {} then
      Ok(GroupRecord(trimmed, owner, totalPoolAmount, totalMonths, Waiting, None, None, now, 0))
    else
      Err(errors)
  }

  /** `canStart`: the participant count read from the graph equals the number of months. */
  predicate CanStart(g: GroupRecord, participantCount: nat)
  {
    participantCount == g.totalMonths
  }

  /** No user appears twice. */
  predicate NoDuplicates(s: seq<string>)
  {
    forall i, j :: 0 <= i < j < |s| ==> s[i] != s[j]
  }

  /** `filter(p => p !== u)`: every occurrence of `u` dropped, the rest kept in order. */
  function Without(s: seq<string>, u: string): (r: seq<string>)
    ensures forall x :: x in r <==> x in s && x != u
    ensures |r| <= |s|
  {
    if s == [] then [] else (if s[0] == u then [] else [s[0]]) + Without(s[1..], u)
  }

  datatype GroupError = AddToStarted | GroupFull | AlreadyParticipant | RemoveFromStarted | RemoveOwner | WinnerNotStarted | InvalidMonth

  /** The guard chain of `addParticipant`, in the source's order. */
  function AddParticipantCheck(status: Status, participants: seq<string>, totalMonths: int, u: string): (r: Outcome<GroupError>)
    ensures r == Pass <==> status != Started && |participants| < totalMonths && u !in participants
    ensures r == Fail(AddToStarted) <==> status == Started
    ensures r == Fail(GroupFull) <==> status != Started && |participants| >= totalMonths
    ensures r == Fail(AlreadyParticipant) <==> status != Started && |participants| < totalMonths && u in participants
  {
    if status == Started then Fail(AddToStarted)
    else if |participants| >= totalMonths then Fail(GroupFull)
    else if u in participants then Fail(AlreadyParticipant)
    else Pass
  }

  /** The guard chain of `removeParticipant`, in the source's order. */
  function RemoveParticipantCheck(status: Status, owner: string, u: string): (r: Outcome<GroupError>)
    ensures r == Pass <==> status != Started && u != owner
    ensures r == Fail(RemoveFromStarted) <==> status == Started
    ensures r == Fail(RemoveOwner) <==> status != Started && u == owner
  {
    if status == Started then Fail(RemoveFromStarted)
    else if u == owner then Fail(RemoveOwner)
    else Pass
  }

  /** The guard chain of `addWinner`: months are 0-based. */
  function AddWinnerCheck(status: Status, totalMonths: int, month: int): (r: Outcome<GroupError>)
    ensures r == Pass <==> status == Started && 0 <= month < totalMonths
    ensures r == Fail(WinnerNotStarted) <==> status != Started
    ensures r == Fail(InvalidMonth) <==> status == Started && (month < 0 || month >= totalMonths)
  {
    if status != Started then Fail(WinnerNotStarted)
    else if month < 0 || month >= totalMonths then Fail(InvalidMonth)
    else Pass
  }

  /** An accepted `addParticipant` keeps the list within capacity and free of duplicates. */
  lemma AddParticipantKeepsInvariant(status: Status, participants: seq<string>, totalMonths: int, u: string)
    requires |participants| <= totalMonths && NoDuplicates(participants)
    requires AddParticipantCheck(status, participants, totalMonths, u) == Pass
    ensures |participants + [u]| <= totalMonths && NoDuplicates(participants + [u])
  {
  }

  /** Removing a user keeps the list free of duplicates. */
  lemma {:induction false} WithoutKeepsNoDuplicates(s: seq<string>, u: string)
    requires NoDuplicates(s)
    ensures NoDuplicates(Without(s, u))
  {
    if s != [] {
      WithoutKeepsNoDuplicates(s[1..], u);
      var rest := Without(s[1..], u);
      if s[0] != u {
        assert s[0] !in rest;
        assert Without(s, u) == [s[0]] + rest;
      }
    }
  }

  /** Removing twice is removing once. */
  lemma {:induction false} WithoutIdempotent(s: seq<string>, u: string)
    ensures Without(Without(s, u), u) == Without(s, u)
  {
    if s != [] {
      WithoutIdempotent(s[1..], u);
      var rest := Without(s[1..], u);
      if s[0] == u {
        assert Without(s, u) == rest;
      } else {
        assert Without(s, u) == [s[0]] + rest;
        assert ([s[0]] + rest)[1..] == rest;
      }
    }
  }

  /** Removing a user that is absent changes nothing. */
  lemma {:induction false} WithoutAbsent(s: seq<string>, u: string)
    requires u !in s
    ensures Without(s, u) == s
  {
    if s != [] {
      WithoutAbsent(s[1..], u);
      assert s == [s[0]] + s[1..];
    }
  }

  /** Filtering distributes over concatenation: the kept entries stay in their original order. */
  lemma {:induction false} WithoutConcat(a: seq<string>, b: seq<string>, u: string)
    ensures Without(a + b, u) == Without(a, u) + Without(b, u)
  {
    if a == [] {
      assert a + b == b;
    } else {
      var head := if a[0] == u then [] else [a[0]];
      calc {
        Without(a + b, u);
        { assert (a + b)[0] == a[0] && (a + b)[1..] == a[1..] + b; }
        head + Without(a[1..] + b, u);
        { WithoutConcat(a[1..], b, u); }
        head + (Without(a[1..], u) + Without(b, u));
        (head + Without(a[1..], u)) + Without(b, u);
      }
    }
  }

  /**
   * A loaded group document. `participants`, `winners` and `winningBids` are
   * the paths the instance methods use; `winners`/`winningBids` are `null`
   * until `addWinner` first allocates them.
   */
  class GroupDocument {
    var record: GroupRecord
    var participants: seq<string>
    var winners: array?<Option<string>>
    var winningBids: array?<Option<int>>

    /** The winner tables, once allocated, have one slot per month. */
    ghost predicate Valid()
      reads this
    {
      && (winners != null ==> winners.Length == record.totalMonths)
      && (winningBids != null ==> winningBids.Length == record.totalMonths)
    }

    constructor (r: GroupRecord, members: seq<string>)
      ensures Valid()
      ensures record == r && participants == members && winners == null && winningBids == null
    {
      record := r;
      participants := members;
      winners := null;
      winningBids := null;
    }

    /** `addParticipant`: on success `u` is appended; on failure nothing changes. */
    method AddParticipant(u: string) returns (r: Outcome<GroupError>)
      requires Valid()
      modifies this
      ensures Valid()
      ensures r == AddParticipantCheck(old(record.status), old(participants), old(record.totalMonths), u)
      ensures participants == if r.Pass? then old(participants) + [u] else old(participants)
      ensures record == old(record) && winners == old(winners) && winningBids == old(winningBids)
    {
      if record.status == Started {
        return Fail(AddToStarted);
      }
      if |participants| >= record.totalMonths {
        return Fail(GroupFull);
      }
      if u in participants {
        return Fail(AlreadyParticipant);
      }
      participants := participants + [u];
      r := Pass;
    }

    /** `removeParticipant`: on success every occurrence of `u` is dropped; on failure nothing changes. */
    method RemoveParticipant(u: string) returns (r: Outcome<GroupError>)
      requires Valid()
      modifies this
      ensures Valid()
      ensures r == RemoveParticipantCheck(old(record.status), old(record.owner), u)
      ensures participants == if r.Pass? then Without(old(participants), u) else old(participants)
      ensures record == old(record) && winners == old(winners) && winningBids == old(winningBids)
    {
      if record.status == Started {
        return Fail(RemoveFromStarted);
      }
      if u == record.owner {
        return Fail(RemoveOwner);
      }
      participants := Without(participants, u);
      r := Pass;
    }

    /**
     * `addWinner`: allocates each table as `totalMonths` nulls if it is
     * missing, then writes slot `month` of both and no other slot.
     */
    method AddWinner(username: string, month: int, bidAmount: int) returns (r: Outcome<GroupError>)
      requires Valid()
      modifies this, winners, winningBids
      ensures Valid()
      ensures r == AddWinnerCheck(old(record.status), old(record.totalMonths), month)
      ensures record == old(record) && participants == old(participants)
      ensures r.Fail? ==> winners == old(winners) && winningBids == old(winningBids)
      ensures r.Fail? && old(winners) != null ==> winners[..] == old(winners[..])
      ensures r.Fail? && old(winningBids) != null ==> winningBids[..] == old(winningBids[..])
      ensures r.Pass? ==> winners != null && winningBids != null
      ensures r.Pass? ==> winners[..] == (if old(winners) == null then seq(record.totalMonths, _ => None) else old(winners[..]))[month := Some(username)]
      ensures r.Pass? ==> winningBids[..] == (if old(winningBids) == null then seq(record.totalMonths, _ => None) else old(winningBids[..]))[month := Some(bidAmount)]
      ensures r.Pass? ==> (old(winners) == null ==> fresh(winners)) && (old(winners) != null ==> winners == old(winners))
      ensures r.Pass? ==> (old(winningBids) == null ==> fresh(winningBids)) && (old(winningBids) != null ==> winningBids == old(winningBids))
    {
      if record.status != Started {
        return Fail(WinnerNotStarted);
      }
      if month < 0 || month >= record.totalMonths {
        return Fail(InvalidMonth);
      }
      if winners == null {
        winners := new Option<string>[record.totalMonths](_ => None);
      }
      if winningBids == null {
        winningBids := new Option<int>[record.totalMonths](_ => None);
      }
      winners[month] := Some(username);
      winningBids[month] := Some(bidAmount);
      r := Pass;
    }
  }
}

/** Room codes (rooms/crud.py, with the `Room` schema of rooms/models.py):
    eight random decimal digits, drawn again while a room already holds the
    code, then one new room. The random source is a parameter: each draw is
    the value `random.randint(0, 9)` returned, and `candidates` is the
    sequence of eight-draw codes the loop would generate in turn. */
module RoomCodes {
  import opened Common

  const CodeLength: nat := 8

  datatype Room = Room(id: nat, code: string)

  predicate IsDigit(c: char) {
    '0' <= c <= '9'
  }

  /** A sequence of `randint(0, 9)` results. */
  predicate Draws(d: seq<int>) {
    forall i :: 0 <= i < |d| ==> 0 <= d[i] <= 9
  }

  /** `str(n)` of one draw. */
  function DigitChar(n: int): (c: char)
    requires 0 <= n <= 9
    ensures IsDigit(c) && c as int - '0' as int == n
  {
    ('0' as int + n) as char
  }

  /** `generate_room_code` (lines 6-7): the draws joined as digits. */
  function GenerateRoomCode(d: seq<int>): (code: string)
    requires |d| == CodeLength && Draws(d)
    ensures |code| == CodeLength
    ensures forall i :: 0 <= i < |code| ==> IsDigit(code[i])
  {
    seq(CodeLength, i requires 0 <= i < CodeLength => DigitChar(d[i]))
  }

  /** The value of each digit of a code. */
  function DigitValues(code: string): seq<int> {
    seq(|code|, i requires 0 <= i < |code| => code[i] as int - '0' as int)
  }

  /** The draws can be read back from the code, so distinct draws give distinct codes. */
  lemma CodeRoundTrip(d: seq<int>, e: seq<int>)
    requires |d| == CodeLength && Draws(d) && |e| == CodeLength && Draws(e)
    ensures DigitValues(GenerateRoomCode(d)) == d
    ensures GenerateRoomCode(d) == GenerateRoomCode(e) ==> d == e
  {
    var c := GenerateRoomCode(d);
    assert forall i :: 0 <= i < CodeLength ==> DigitValues(c)[i] == d[i];
    if c == GenerateRoomCode(e) {
      assert forall i :: 0 <= i < CodeLength ==> DigitValues(c)[i] == e[i];
    }
  }

  predicate Taken(rooms: seq<Room>, code: string) {
    exists i :: 0 <= i < |rooms| && rooms[i].code == code
  }

  /** `get_room_by_code` (lines 18-23): the room holding the code, or None
      where `Room.get` raises `DoesNotExist`. */
  function GetRoomByCode(rooms: seq<Room>, code: string): (r: Option<Room>)
    ensures r.None? <==> !Taken(rooms, code)
    ensures r.Some? ==> r.value.code == code && r.value in rooms
  {
    if rooms == [] then None
    else if rooms[0].code == code then Some(rooms[0])
    else
      var r := GetRoomByCode(rooms[1..], code);
      assert forall j :: 1 <= j < |rooms| ==> rooms[j] == rooms[1..][j - 1];
      r
  }

  /** The `unique=True` and `max_length=8` constraints of `Room.code`. */
  ghost predicate UniqueCodes(rooms: seq<Room>) {
    (forall i, j :: 0 <= i < j < |rooms| ==> rooms[i].code != rooms[j].code) &&
    forall i :: 0 <= i < |rooms| ==> |rooms[i].code| <= CodeLength
  }

  /** With codes unique, the room found is the only one holding the code. */
  lemma {:induction false} LookupIsUnique(rooms: seq<Room>, code: string, i: nat)
    requires UniqueCodes(rooms) && i < |rooms| && rooms[i].code == code
    ensures GetRoomByCode(rooms, code) == Some(rooms[i])
  {
    if rooms[0].code != code {
      assert forall j :: 1 <= j < |rooms| ==> rooms[j] == rooms[1..][j - 1];
      LookupIsUnique(rooms[1..], code, i - 1);
    }
  }

  predicate AllDraws(candidates: seq<seq<int>>) {
    forall k :: 0 <= k < |candidates| ==> |candidates[k]| == CodeLength && Draws(candidates[k])
  }

  class RoomTable {
    var rooms: seq<Room>
    var nextId: nat

    ghost predicate Valid()
      reads this
    {
      UniqueCodes(rooms) && forall i :: 0 <= i < |rooms| ==> rooms[i].id < nextId
    }

    constructor ()
      ensures Valid() && rooms == []
    {
      rooms := [];
      nextId := 1;
    }

    /** `Room.exists(code=code)`. */
    method Exists(code: string) returns (b: bool)
      ensures b <==> Taken(rooms, code)
    {
      var i := 0;
      while i < |rooms|
        invariant 0 <= i <= |rooms|
        invariant forall j :: 0 <= j < i ==> rooms[j].code != code
      {
        if rooms[i].code == code {
          return true;
        }
        i := i + 1;
      }
      return false;
    }

    /** `create_room` (lines 10-15): the first candidate code no room holds
        becomes one new room. None means every candidate was taken, where
        the source goes on drawing. */
    method CreateRoom(candidates: seq<seq<int>>) returns (r: Option<Room>)
      requires Valid() && AllDraws(candidates)
      modifies this
      ensures Valid()
      ensures r.None? ==> (unchanged(this) &&
        forall k :: 0 <= k < |candidates| ==> Taken(rooms, GenerateRoomCode(candidates[k])))
      ensures r.Some? ==> exists k :: (0 <= k < |candidates| && r.value.code == GenerateRoomCode(candidates[k]) &&
        forall j :: 0 <= j < k ==> Taken(old(rooms), GenerateRoomCode(candidates[j])))
      ensures r.Some? ==> !Taken(old(rooms), r.value.code) && rooms == old(rooms) + [r.value] && r.value.id == old(nextId)
    {
      if candidates == [] {
        return None;
      }
      var k := 0;
      var code := GenerateRoomCode(candidates[0]);
      var taken := Exists(code);
      while taken
        invariant 0 <= k < |candidates| && code == GenerateRoomCode(candidates[k])
        invariant unchanged(this)
        invariant taken <==> Taken(rooms, code)
        invariant forall j :: 0 <= j < k ==> Taken(rooms, GenerateRoomCode(candidates[j]))
        decreases |candidates| - k
      {
        if k + 1 == |candidates| {
          return None;
        }
        k := k + 1;
        code := GenerateRoomCode(candidates[k]);
        taken := Exists(code);
      }
      var room := Room(nextId, code);
      ghost var before := rooms;
      rooms := rooms + [room];
      nextId := nextId + 1;
      assert forall i :: 0 <= i < |before| ==> rooms[i] == before[i];
      assert forall i :: 0 <= i < |before| ==> before[i].code != code;
      r := Some(room);
    }
  }
}

/** `DicewarePasswordBuilder`: rolls `count` six-sided dice, one random byte
    per die, and joins the faces into a digit string such as `35142`. The
    bytes the secure source would fill are the input `randomBytes`. */
module DicewareBuilder {
  import opened Common
  import opened Text
  import Diceware
  import Counting

  /** The face a byte rolls: `"123456"[b % 6] - '0'`. */
  function DieFace(b: byte): (r: int)
    ensures 1 <= r <= 6
    ensures (r - 1) == b % 6
  {
    "123456"[b % 6] as int - '0' as int
  }

  /** The printed face is the character `"123456"[b % 6]`, a die character. */
  lemma DieFaceString(b: byte)
    ensures DecimalString(DieFace(b)) == ["123456"[b % 6]]
    ensures Diceware.IsDieChar("123456"[b % 6])
  {
    DecimalStringOfDigit(DieFace(b));
  }

  /** `b % 6` gives faces 1 to 4 from 43 byte values each and faces 5 and
      6 from 42: the dice are slightly loaded. */
  lemma DieFaceBias(face: int)
    requires 1 <= face <= 6
    ensures |Counting.Residues(6, face - 1, 256)| == if face <= 4 then 43 else 42
  {
    Counting.ByteResidues(6, face - 1);
  }

  class DicewarePasswordBuilder {
    var count: int32

    /** `_count` starts at 5. */
    constructor ()
      ensures count == 5
    {
      count := 5;
    }

    /** `GenerateDiceRoll`: one face per byte, roll `i` from byte `i` alone.
        A negative count makes the array allocation throw. */
    method GenerateDiceRoll(diceCount: int32, randomBytes: seq<byte>) returns (r: Result<seq<int>>)
      requires diceCount >= 0 ==> |randomBytes| == diceCount
      ensures diceCount < 0 ==> r == Err(Overflow)
      ensures diceCount >= 0 ==> r.Ok? && |r.value| == diceCount
      ensures r.Ok? ==> forall i :: 0 <= i < |r.value| ==>
                1 <= r.value[i] <= 6 && r.value[i] == randomBytes[i] % 6 + 1
    {
      if diceCount < 0 {
        return Err(Overflow);
      }
      var diceRolls := new int[diceCount];
      for i := 0 to diceCount
        invariant forall j :: 0 <= j < i ==> diceRolls[j] == DieFace(randomBytes[j])
      {
        diceRolls[i] := "123456"[randomBytes[i] % 6] as int - '0' as int;
      }
      return Ok(diceRolls[..]);
    }

    /** `GeneratePassword`: the rolls joined with no separator: `count`
        characters, each the face of the matching byte, so never empty for
        a positive count. */
    method GeneratePassword(randomBytes: seq<byte>) returns (r: Result<string>)
      requires count >= 0 ==> |randomBytes| == count
      ensures count < 0 ==> r == Err(Overflow)
      ensures count >= 0 ==> r.Ok? && |r.value| == count
      ensures r.Ok? ==> Diceware.IsDiceString(r.value)
      ensures r.Ok? ==> forall i :: 0 <= i < |r.value| ==>
                r.value[i] as int - '0' as int == randomBytes[i] % 6 + 1
    {
      var diceRolls := GenerateDiceRoll(count, randomBytes);
      if diceRolls.Err? {
        return Err(diceRolls.error);
      }
      var rolls := diceRolls.value;
      var password := "";
      for i := 0 to |rolls|
        invariant |password| == i
        invariant forall j :: 0 <= j < i ==>
                    Diceware.IsDieChar(password[j])
                    && password[j] as int - '0' as int == randomBytes[j] % 6 + 1
      {
        DieFaceString(randomBytes[i]);
        password := password + DecimalString(rolls[i]);
      }
      return Ok(password);
    }
  }
}

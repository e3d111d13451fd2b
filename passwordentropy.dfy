/** `PasswordEntropy`: a password, its entropy in bits and the estimated
    time to crack it, set once at construction; and the strength grade the
    entropy falls into. */
module Entropy {
  import opened Common

  /** `PasswordStrength`, in its declaration order 0..5. */
  datatype PasswordStrength = VeryWeak | Weak | Mediocre | Strong | VeryStrong | Overkill

  /** The enum's underlying value. */
  function Ordinal(s: PasswordStrength): (r: nat)
    ensures r <= 5
  {
    match s
    case VeryWeak => 0
    case Weak => 1
    case Mediocre => 2
    case Strong => 3
    case VeryStrong => 4
    case Overkill => 5
  }

  /** The fields of a `PasswordEntropy`. `timeToCrack` is what
      `EntropyCalculatorHelper.GetTimeToCrack` returned for the entropy. */
  datatype PasswordEntropy = PasswordEntropy(password: string, bitEntropy: real, timeToCrack: int32)

  /** The constructor: stores the password and the entropy as given. */
  function NewPasswordEntropy(password: string, entropy: real, timeToCrack: int32): (r: PasswordEntropy)
    ensures r.bitEntropy == entropy && r.password == password
  {
    PasswordEntropy(password, entropy, timeToCrack)
  }

  /** `GetPasswordStrength`: the first inclusive threshold among 25, 35, 59,
      127 and 190 that the entropy does not exceed. */
  function GetPasswordStrength(e: PasswordEntropy): (r: PasswordStrength)
    ensures r == VeryWeak <==> e.bitEntropy <= 25.0
    ensures r == Weak <==> 25.0 < e.bitEntropy <= 35.0
    ensures r == Mediocre <==> 35.0 < e.bitEntropy <= 59.0
    ensures r == Strong <==> 59.0 < e.bitEntropy <= 127.0
    ensures r == VeryStrong <==> 127.0 < e.bitEntropy <= 190.0
    ensures r == Overkill <==> 190.0 < e.bitEntropy
  {
    if e.bitEntropy <= 25.0 then VeryWeak
    else if e.bitEntropy <= 35.0 then Weak
    else if e.bitEntropy <= 59.0 then Mediocre
    else if e.bitEntropy <= 127.0 then Strong
    else if e.bitEntropy <= 190.0 then VeryStrong
    else Overkill
  }

  /** More entropy never gives a lower grade. */
  lemma StrengthMonotone(e1: PasswordEntropy, e2: PasswordEntropy)
    requires e1.bitEntropy <= e2.bitEntropy
    ensures Ordinal(GetPasswordStrength(e1)) <= Ordinal(GetPasswordStrength(e2))
  {
  }

  /** The grade depends on the entropy alone, never on the password text
      or the time to crack. */
  lemma StrengthIgnoresPassword(e1: PasswordEntropy, e2: PasswordEntropy)
    requires e1.bitEntropy == e2.bitEntropy
    ensures GetPasswordStrength(e1) == GetPasswordStrength(e2)
  {
  }

  /** 10, 30, 45, 60, 130 and 195 bits fall into the six grades in order;
      70 and 93 bits are both strong. */
  lemma StrengthExamples(password: string, t: int32)
    ensures GetPasswordStrength(NewPasswordEntropy(password, 10.0, t)) == VeryWeak
    ensures GetPasswordStrength(NewPasswordEntropy(password, 30.0, t)) == Weak
    ensures GetPasswordStrength(NewPasswordEntropy(password, 45.0, t)) == Mediocre
    ensures GetPasswordStrength(NewPasswordEntropy(password, 60.0, t)) == Strong
    ensures GetPasswordStrength(NewPasswordEntropy(password, 130.0, t)) == VeryStrong
    ensures GetPasswordStrength(NewPasswordEntropy(password, 195.0, t)) == Overkill
    ensures GetPasswordStrength(NewPasswordEntropy(password, 70.0, t)) == Strong
    ensures GetPasswordStrength(NewPasswordEntropy(password, 93.0, t)) == Strong
  {
  }
}

/** The typewriter effect of the portfolio page: four module-level
    variables and a step that types one more character of the current role,
    or deletes one, switching phase at either end. */
module Typewriter {

  /** The roles the page cycles through. */
  const Roles: seq<string> := [
    "Business Analyst",
    "Digital Marketing Specialist",
    "Data-Driven Problem Solver",
    "AI & ML Enthusiast"
  ]

  /** `roleIndex`, `charIndex`, `isDeleting` and `typeSpeed`. */
  datatype TypeState = TypeState(roleIndex: int, charIndex: int, isDeleting: bool, typeSpeed: int)

  /** The values the four variables are declared with. */
  const Start: TypeState := TypeState(0, 0, false, 100)

  /** The delays the step chooses from: typing, deleting, the pause once a
      role is fully typed, and the pause before the next role. */
  const TypingDelay := 100
  const DeletingDelay := 50
  const FullPause := 2000
  const NextRolePause := 500

  predicate KnownDelay(ms: int) {
    ms == TypingDelay || ms == DeletingDelay || ms == FullPause || ms == NextRolePause
  }

  /** `s.substring(0, n)`: the first `n` characters, `n` clamped to the
      length of `s` and negative `n` read as 0. */
  function Substring(s: string, n: int): (p: string)
    ensures |p| == if n < 0 then 0 else if n > |s| then |s| else n
    ensures p == s[..|p|]
  {
    if n < 0 then "" else if n > |s| then s else s[..n]
  }

  /** The role texts the effect can show: all of them non-empty, since an
      empty role would never reach its end while typing. */
  predicate ValidRoles(roles: seq<string>) {
    |roles| > 0 && forall i :: 0 <= i < |roles| ==> |roles[i]| > 0
  }

  /** The variables after one call of `typeWriter`. */
  function Next(roles: seq<string>, st: TypeState): (n: TypeState)
    requires 0 <= st.roleIndex < |roles|
    ensures KnownDelay(n.typeSpeed)
    ensures n.typeSpeed ==
      if n.isDeleting == st.isDeleting then (if st.isDeleting then DeletingDelay else TypingDelay)
      else (if st.isDeleting then NextRolePause else FullPause)
    ensures n.charIndex == if st.isDeleting then st.charIndex - 1 else st.charIndex + 1
    ensures n.isDeleting != st.isDeleting <==>
      n.charIndex == (if st.isDeleting then 0 else |roles[st.roleIndex]|)
    ensures n.roleIndex == if st.isDeleting && !n.isDeleting then (st.roleIndex + 1) % |roles| else st.roleIndex
  {
    var role := roles[st.roleIndex];
    if st.isDeleting then
      var c := st.charIndex - 1;
      if c == 0 then TypeState((st.roleIndex + 1) % |roles|, c, false, NextRolePause)
      else TypeState(st.roleIndex, c, true, DeletingDelay)
    else
      var c := st.charIndex + 1;
      if c == |role| then TypeState(st.roleIndex, c, true, FullPause)
      else TypeState(st.roleIndex, c, false, TypingDelay)
  }

  /** The text one call of `typeWriter` writes to the element. */
  function Shown(roles: seq<string>, st: TypeState): (s: string)
    requires 0 <= st.roleIndex < |roles|
    ensures |s| <= |roles[st.roleIndex]|
    ensures s == roles[st.roleIndex][..|s|]
    ensures 0 <= Next(roles, st).charIndex <= |roles[st.roleIndex]| ==> |s| == Next(roles, st).charIndex
  {
    var role := roles[st.roleIndex];
    if st.isDeleting then Substring(role, st.charIndex - 1) else Substring(role, st.charIndex + 1)
  }

  /** What holds between two calls: the role index is in range, while
      typing fewer than all characters are shown, while deleting at least
      one is, and the delay is one of the four. */
  predicate Inv(roles: seq<string>, st: TypeState) {
    && ValidRoles(roles)
    && 0 <= st.roleIndex < |roles|
    && (!st.isDeleting ==> 0 <= st.charIndex < |roles[st.roleIndex]|)
    && (st.isDeleting ==> 1 <= st.charIndex <= |roles[st.roleIndex]|)
    && KnownDelay(st.typeSpeed)
  }

  /** The roles of the page are all non-empty. */
  lemma RolesValid()
    ensures ValidRoles(Roles)
  {
  }

  /** The declared values satisfy the invariant for any valid roles. */
  lemma StartInv(roles: seq<string>)
    requires ValidRoles(roles)
    ensures Inv(roles, Start)
  {
  }

  /** One step keeps the invariant. */
  lemma StepInv(roles: seq<string>, st: TypeState)
    requires Inv(roles, st)
    ensures Inv(roles, Next(roles, st))
  {
  }

  /** A typing step shows one more character of the role and a deleting step
      one fewer: after every step the element holds the first `charIndex`
      characters of the role it was working on. */
  lemma StepShows(roles: seq<string>, st: TypeState)
    requires Inv(roles, st)
    ensures !st.isDeleting ==> Next(roles, st).charIndex == st.charIndex + 1
    ensures st.isDeleting ==> Next(roles, st).charIndex == st.charIndex - 1
    ensures Shown(roles, st) == roles[st.roleIndex][..Next(roles, st).charIndex]
  {
  }

  /** Typing the last character switches to deleting, after the long pause;
      deleting the first character moves on to the next role, after the
      short pause. No other step changes the phase or the role. */
  lemma PhaseChanges(roles: seq<string>, st: TypeState)
    requires Inv(roles, st)
    ensures var n := Next(roles, st);
      (!st.isDeleting && n.isDeleting <==> !st.isDeleting && n.charIndex == |roles[st.roleIndex]|)
      && (!st.isDeleting && n.isDeleting ==> n.typeSpeed == FullPause && n.roleIndex == st.roleIndex)
      && (st.isDeleting && !n.isDeleting <==> st.isDeleting && n.charIndex == 0)
      && (st.isDeleting && !n.isDeleting ==> n.typeSpeed == NextRolePause && n.roleIndex == (st.roleIndex + 1) % |roles|)
      && (n.isDeleting == st.isDeleting ==> n.roleIndex == st.roleIndex)
  {
  }

  // ----- runs of steps -----

  /** The variables after `n` calls. Every step keeps the invariant, so
      every state reached from one that holds it holds it too. */
  function Run(roles: seq<string>, st: TypeState, n: nat): (r: TypeState)
    requires Inv(roles, st)
    ensures Inv(roles, r)
    decreases n
  {
    if n == 0 then st
    else
      StepInv(roles, st);
      Run(roles, Next(roles, st), n - 1)
  }

  /** From the declared start, after any number of steps the role index is
      in range and `charIndex` lies between 0 and the current role's length. */
  lemma Reachable(roles: seq<string>, n: nat)
    requires ValidRoles(roles)
    ensures 0 <= Run(roles, Start, n).roleIndex < |roles|
    ensures 0 <= Run(roles, Start, n).charIndex <= |roles[Run(roles, Start, n).roleIndex]|
    ensures KnownDelay(Run(roles, Start, n).typeSpeed)
  {
    StartInv(roles);
  }

  lemma {:induction false} RunAdd(roles: seq<string>, st: TypeState, a: nat, b: nat)
    requires Inv(roles, st)
    ensures Run(roles, st, a + b) == Run(roles, Run(roles, st, a), b)
    decreases a
  {
    if a > 0 {
      StepInv(roles, st);
      RunAdd(roles, Next(roles, st), a - 1, b);
    }
  }

  /** Typing from `c` characters reaches the whole role in `|role| - c`
      steps and then waits the long pause before deleting. */
  lemma {:induction false} TypeToEnd(roles: seq<string>, st: TypeState)
    requires Inv(roles, st) && !st.isDeleting
    ensures Run(roles, st, |roles[st.roleIndex]| - st.charIndex)
         == TypeState(st.roleIndex, |roles[st.roleIndex]|, true, FullPause)
    decreases |roles[st.roleIndex]| - st.charIndex
  {
    StepInv(roles, st);
    var n := Next(roles, st);
    if st.charIndex + 1 < |roles[st.roleIndex]| {
      TypeToEnd(roles, n);
    }
  }

  /** Deleting from `c` characters empties the element in `c` steps and then
      moves on to the next role, typing after the short pause. */
  lemma {:induction false} DeleteToStart(roles: seq<string>, st: TypeState)
    requires Inv(roles, st) && st.isDeleting
    ensures Run(roles, st, st.charIndex)
         == TypeState((st.roleIndex + 1) % |roles|, 0, false, NextRolePause)
    decreases st.charIndex
  {
    StepInv(roles, st);
    var n := Next(roles, st);
    if st.charIndex > 1 {
      DeleteToStart(roles, n);
    }
  }

  /** A role of length L takes 2L steps from an empty element to the empty
      element of the next role: L to type it and L to delete it. */
  lemma RoleCycle(roles: seq<string>, st: TypeState)
    requires Inv(roles, st) && !st.isDeleting && st.charIndex == 0
    ensures Run(roles, st, 2 * |roles[st.roleIndex]|)
         == TypeState((st.roleIndex + 1) % |roles|, 0, false, NextRolePause)
  {
    var len := |roles[st.roleIndex]|;
    TypeToEnd(roles, st);
    RunAdd(roles, st, len, len);
    var full := TypeState(st.roleIndex, len, true, FullPause);
    DeleteToStart(roles, full);
  }

  // ----- the page's variables -----

  /** The script's variables and the element the text is written to. */
  class TypewriterEffect {
    const roles: seq<string>
    var roleIndex: int
    var charIndex: int
    var isDeleting: bool
    var typeSpeed: int
    /** `typewriterElement.textContent`. */
    var text: string

    function State(): TypeState
      reads this
    {
      TypeState(roleIndex, charIndex, isDeleting, typeSpeed)
    }

    /** The declarations of the four variables. */
    constructor (roles: seq<string>)
      ensures this.roles == roles && State() == Start && text == ""
    {
      this.roles := roles;
      roleIndex, charIndex, isDeleting, typeSpeed := 0, 0, false, 100;
      text := "";
    }

    /** `typeWriter`: writes the next text and updates the variables, the
        way `Next` and `Shown` describe. The rescheduling by `setTimeout`
        is left to the caller. */
    method TypeWriter()
      requires 0 <= roleIndex < |roles|
      modifies this
      ensures State() == Next(roles, old(State()))
      ensures text == Shown(roles, old(State()))
    {
      var currentRole := roles[roleIndex];
      if isDeleting {
        text := Substring(currentRole, charIndex - 1);
        charIndex := charIndex - 1;
        typeSpeed := DeletingDelay;
      } else {
        text := Substring(currentRole, charIndex + 1);
        charIndex := charIndex + 1;
        typeSpeed := TypingDelay;
      }
      if !isDeleting && charIndex == |currentRole| {
        typeSpeed := FullPause;
        isDeleting := true;
      } else if isDeleting && charIndex == 0 {
        isDeleting := false;
        roleIndex := (roleIndex + 1) % |roles|;
        typeSpeed := NextRolePause;
      }
    }
  }
}

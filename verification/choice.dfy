/** Choices (sym_choice_default, sym_calc_choice and the choice cases of sym_calc_value,
    sym_tristate_within_range and sym_set_tristate_value in symbol.c). */
module Choices {
  import opened Exprs
  import opened Symbols
  import opened SymbolValues

  /** A default of a choice names a symbol, not necessarily one of the choice. */
  datatype ChoiceDefault = ChoiceDefault(sym: Symbol, visible: Option<Expr>)

  /** A choice symbol, and the user's pick: def[S_DEF_USER].val of the choice */
  datatype Choice = Choice(members: seq<Symbol>, defaults: seq<ChoiceDefault>, picked: Option<Symbol>)

  /** The visible field of symbols, which is n until it is calculated */
  type Visibility = map<Symbol, Tristate>

  function Vis(vis: Visibility, s: Symbol): Tristate { if s in vis then vis[s] else NO }

  /** Default i of a choice is usable. */
  predicate Usable(c: Choice, i: nat, vis: Visibility, v: Valuation)
    requires i < |c.defaults|
  {
    EvalOpt(c.defaults[i].visible, v) != NO && Vis(vis, c.defaults[i].sym) != NO
  }

  /** Default i is the first usable one. */
  ghost predicate FirstUsable(c: Choice, i: nat, vis: Visibility, v: Valuation)
    requires i < |c.defaults|
  {
    Usable(c, i, vis, v) && forall j :: 0 <= j < i ==> !Usable(c, j, vis, v)
  }

  /** The default of a choice: its first usable default, or else its first visible member. */
  ghost predicate IsDefault(c: Choice, vis: Visibility, v: Valuation, r: Option<Symbol>) {
    || (exists i :: 0 <= i < |c.defaults| && FirstUsable(c, i, vis, v) && r == Some(c.defaults[i].sym))
    || ((forall j :: 0 <= j < |c.defaults| ==> !Usable(c, j, vis, v)) && IsFirstVisible(c.members, vis, r))
  }

  ghost predicate IsFirstVisible(members: seq<Symbol>, vis: Visibility, r: Option<Symbol>) {
    if r.None? then forall i :: 0 <= i < |members| ==> Vis(vis, members[i]) == NO
    else exists i :: 0 <= i < |members| && members[i] == r.value && Vis(vis, members[i]) != NO
                     && forall j :: 0 <= j < i ==> Vis(vis, members[j]) == NO
  }

  predicate PickVisible(c: Choice, vis: Visibility) {
    c.picked.Some? && Vis(vis, c.picked.value) != NO
  }

  /** The symbol a choice that is y records: the user's pick while it is visible, or else the default */
  ghost predicate Chosen(c: Choice, vis: Visibility, v: Valuation, r: Option<Symbol>) {
    if PickVisible(c, vis) then r == c.picked else IsDefault(c, vis, v, r)
  }

  /** The visible fields of the members, after the choice was calculated */
  ghost predicate MembersSeen(k: Kconfig, c: Choice, v: Valuation, vis: Visibility) {
    forall s :: s in c.members ==> s in k.defs && Vis(vis, s) == Visible(k, s, v)
  }

  /** The value of the choice itself: the user's, as far as its prompt allows, or what selects it. Its defaults name
      members and do not count. */
  function ChoiceTri(k: Kconfig, s: Symbol, v: Valuation): Tristate
    requires s in k.defs
  {
    var vis := Visible(k, s, v);
    var user := if vis != NO && s in k.user then Apply(AndOp, k.user[s].tri, vis) else NO;
    Lift(k, s, Apply(OrOp, user, RevDep(k, s, v)))
  }

  class ChoiceCalculator {
    var visible: Visibility

    /** sym_choice_default */
    method ChoiceDefault(c: Choice, v: Valuation) returns (r: Option<Symbol>)
      ensures IsDefault(c, visible, v, r)
    {
      for i := 0 to |c.defaults|
        invariant forall j :: 0 <= j < i ==> !Usable(c, j, visible, v)
      {
        if EvalOpt(c.defaults[i].visible, v) == NO {
          continue;
        }
        var sym := c.defaults[i].sym;
        if Vis(visible, sym) != NO {
          assert FirstUsable(c, i, visible, v);
          return Some(sym);
        }
      }
      for i := 0 to |c.members|
        invariant forall j :: 0 <= j < i ==> Vis(visible, c.members[j]) == NO
      {
        if Vis(visible, c.members[i]) != NO {
          return Some(c.members[i]);
        }
      }
      r := None;
    }

    /** sym_calc_choice: curr.val of a choice that came out as y, and its curr.tri, which becomes n again
        if there is nothing to choose. */
    method CalcChoice(k: Kconfig, c: Choice, v: Valuation) returns (r: Option<Symbol>, tri: Tristate)
      requires forall s :: s in c.members ==> s in k.defs
      modifies this
      ensures MembersSeen(k, c, v, visible) && (forall s :: s !in c.members ==> Vis(visible, s) == Vis(old(visible), s))
      ensures Chosen(c, visible, v, r)
      ensures tri == if r.Some? then YES else NO
    {
      for i := 0 to |c.members|
        invariant forall j :: 0 <= j < i ==> Vis(visible, c.members[j]) == Visible(k, c.members[j], v)
        invariant forall s :: s !in c.members ==> Vis(visible, s) == Vis(old(visible), s)
      {
        visible := visible[c.members[i] := Visible(k, c.members[i], v)];
      }
      tri := YES;
      if c.picked.Some? && Vis(visible, c.picked.value) != NO {
        return c.picked, YES;
      }
      r := ChoiceDefault(c, v);
      if r.None? {
        tri := NO;
      }
    }

    /** sym_calc_value for the choice symbol s: only a choice that comes out as y records a symbol. */
    method CalcChoiceValue(k: Kconfig, s: Symbol, c: Choice, v: Valuation) returns (r: Option<Symbol>, tri: Tristate)
      requires s in k.defs && forall t :: t in c.members ==> t in k.defs
      modifies this
      ensures ChoiceTri(k, s, v) != YES ==> r.None? && tri == ChoiceTri(k, s, v) && visible == old(visible)
      ensures ChoiceTri(k, s, v) == YES ==>
                MembersSeen(k, c, v, visible) && Chosen(c, visible, v, r) && tri == if r.Some? then YES else NO
    {
      tri, r := NO, None;
      var vis, rev := Visible(k, s, v), RevDep(k, s, v);
      if vis != NO && s in k.user {
        tri := Apply(AndOp, k.user[s].tri, vis);
      }
      tri := Apply(OrOp, tri, rev);
      if tri == MOD && EffectiveType(s, k.modules) == SBoolean {
        tri := YES;
      }
      if tri == YES {
        r, tri := CalcChoice(k, c, v);
      }
    }
  }

  // ----- the value of the choice itself -----

  function WithoutDefaults(props: seq<Property>): seq<Property> {
    if props == [] then []
    else
      var last := props[|props| - 1];
      WithoutDefaults(props[..|props| - 1]) + if last.Default? then [] else [last]
  }

  /** The database in which the symbol has no defaults */
  function Undefaulted(k: Kconfig, s: Symbol): Kconfig
    requires s in k.defs
  {
    k.(defs := k.defs[s := k.defs[s].(props := WithoutDefaults(k.defs[s].props))])
  }

  lemma {:induction false} DefaultsDropped(props: seq<Property>, v: Valuation)
    ensures PromptTri(WithoutDefaults(props), v) == PromptTri(props, v)
    ensures forall p :: p in WithoutDefaults(props) ==> !p.Default?
  {
    if props != [] {
      var init, last := props[..|props| - 1], props[|props| - 1];
      DefaultsDropped(init, v);
      var kept := WithoutDefaults(init);
      if last.Default? {
        assert WithoutDefaults(props) == kept + [] == kept;
      } else {
        assert WithoutDefaults(props) == kept + [last];
        assert (kept + [last])[..|kept + [last]| - 1] == kept;
      }
    }
  }

  /** A choice is calculated like any other symbol, except that its defaults do not count. */
  lemma ChoiceCalculated(k: Kconfig, s: Symbol, v: Valuation)
    requires s in k.defs && IsLogical(s)
    ensures ChoiceTri(k, s, v) == Compute(Undefaulted(k, s), s, v).curr.tri
  {
    var props := k.defs[s].props;
    DefaultsDropped(props, v);
    NoDefault(WithoutDefaults(props), v);
  }

  /** menu_finalize gives a choice that is not optional the select bound "its prompt's condition && m". */
  ghost predicate Mandatory(d: Definition, e: Option<Expr>) {
    && (exists i :: 0 <= i < |d.props| && d.props[i] == Prompt(e))
    && (forall i :: 0 <= i < |d.props| && d.props[i].Prompt? ==> d.props[i] == Prompt(e))
    && d.revDep == Some(if e.Some? then Bin(AndOp, e.value, Sym(SYM_M)) else Sym(SYM_M))
  }

  /** Whatever the user sets, such a choice is n only where its prompt is hidden; a boolean one is then y. */
  lemma MandatoryValue(k: Kconfig, s: Symbol, e: Option<Expr>, v: Valuation)
    requires s in k.defs && IsLogical(s) && Mandatory(k.defs[s], e)
    ensures ChoiceTri(k, s, v) == NO <==> EvalOpt(e, v) == NO
    ensures !ThreeValued(k, s) ==> ChoiceTri(k, s, v) == if EvalOpt(e, v) != NO then YES else NO
  {
    EvalYn(v);
    BoundsAt(k, s, v);
  }

  /** Exactly one member of a mandatory boolean choice is y, if and only if its prompt is shown and the choice names
      a member. */
  lemma MandatoryOneMember(k: Kconfig, s: Symbol, c: Choice, vis: Visibility, v: Valuation, r: Option<Symbol>,
                           e: Option<Expr>)
    requires BooleanChoice(k, c) && s in k.defs && IsLogical(s) && Mandatory(k.defs[s], e) && !ThreeValued(k, s)
    requires Recorded(k, s, c, vis, v, r)
    ensures ExactlyOne(k, c, v, r) <==> EvalOpt(e, v) != NO && NamesMember(c, vis, v)
  {
    MandatoryValue(k, s, e, v);
    OneMemberIsYes(k, s, c, vis, v, r);
  }

  // ----- the members -----

  /** sym_calc_value for a member: the choice decides while the member is fully visible. A select never
      matters, because the select bound of members is not calculated. */
  function MemberTri(k: Kconfig, s: Symbol, v: Valuation, chosen: Option<Symbol>): Tristate
    requires s in k.defs
  {
    var vis := Visible(k, s, v);
    if vis == YES then if chosen == Some(s) then YES else NO
    else
      var default := FirstDefault(k.defs[s].props, v);
      Lift(k, s, if vis != NO && s in k.user then Apply(AndOp, k.user[s].tri, vis)
                 else if default.Some? then Apply(AndOp, Eval(default.value.0, v), default.value.1)
                 else NO)
  }

  /** A member that is not fully visible is calculated like any other symbol, except that selects do not count. */
  lemma MemberCalculated(k: Kconfig, s: Symbol, v: Valuation, chosen: Option<Symbol>)
    requires s in k.defs && IsLogical(s)
    ensures var k' := k.(defs := k.defs[s := k.defs[s].(revDep := None)]);
            Visible(k, s, v) != YES ==> MemberTri(k, s, v, chosen) == Compute(k', s, v).curr.tri
    ensures Visible(k, s, v) == YES ==> (MemberTri(k, s, v, chosen) == if chosen == Some(s) then YES else NO)
  {
    var k' := k.(defs := k.defs[s := k.defs[s].(revDep := None)]);
    assert Visible(k', s, v) == Visible(k, s, v) && RevDep(k', s, v) == NO;
  }

  /** Members of a boolean choice, which must not have defaults of their own */
  ghost predicate BooleanChoice(k: Kconfig, c: Choice) {
    && (forall i, j :: 0 <= i < j < |c.members| ==> c.members[i] != c.members[j])
    && (forall s :: s in c.members ==>
          s in k.defs && EffectiveType(s, k.modules) == SBoolean
          && forall i :: 0 <= i < |k.defs[s].props| ==> !k.defs[s].props[i].Default?)
  }

  lemma {:induction false} NoDefault(props: seq<Property>, v: Valuation)
    requires forall i :: 0 <= i < |props| ==> !props[i].Default?
    ensures FirstDefault(props, v) == None
  {
    if props != [] {
      NoDefault(props[1..], v);
    }
  }

  ghost predicate ExactlyOne(k: Kconfig, c: Choice, v: Valuation, chosen: Option<Symbol>)
    requires forall s :: s in c.members ==> s in k.defs
  {
    exists s :: s in c.members && MemberTri(k, s, v, chosen) == YES
                && forall t :: t in c.members && t != s ==> MemberTri(k, t, v, chosen) == NO
  }

  /** A member is y if and only if it is recorded and visible, and n otherwise. */
  lemma MemberValue(k: Kconfig, c: Choice, v: Valuation, chosen: Option<Symbol>, s: Symbol)
    requires BooleanChoice(k, c) && s in c.members
    ensures MemberTri(k, s, v, chosen) == if chosen == Some(s) && Visible(k, s, v) != NO then YES else NO
  {
    NoDefault(k.defs[s].props, v);
  }

  /** The choice is about one of its members: the visible pick, or without one the first usable default, or without
      either any visible member. */
  ghost predicate NamesMember(c: Choice, vis: Visibility, v: Valuation) {
    || (PickVisible(c, vis) && c.picked.value in c.members)
    || (!PickVisible(c, vis)
        && exists i :: 0 <= i < |c.defaults| && FirstUsable(c, i, vis, v) && c.defaults[i].sym in c.members)
    || (!PickVisible(c, vis) && (forall i :: 0 <= i < |c.defaults| ==> !Usable(c, i, vis, v))
        && exists s :: s in c.members && Vis(vis, s) != NO)
  }

  /** What a choice s has recorded once it is calculated */
  ghost predicate Recorded(k: Kconfig, s: Symbol, c: Choice, vis: Visibility, v: Valuation, r: Option<Symbol>)
    requires s in k.defs
  {
    if ChoiceTri(k, s, v) == YES then MembersSeen(k, c, v, vis) && Chosen(c, vis, v, r) else r.None?
  }

  /** The recorded symbol is a member just when the choice names a member. */
  lemma ChosenMember(c: Choice, vis: Visibility, v: Valuation, r: Option<Symbol>)
    requires Chosen(c, vis, v, r)
    ensures r.Some? && r.value in c.members <==> NamesMember(c, vis, v)
    ensures r.Some? ==> Vis(vis, r.value) != NO
  {
    if !PickVisible(c, vis) {
      if i :| 0 <= i < |c.defaults| && Usable(c, i, vis, v) {
        var j :| 0 <= j < |c.defaults| && FirstUsable(c, j, vis, v) && r == Some(c.defaults[j].sym);
        assert forall l :: 0 <= l < |c.defaults| && FirstUsable(c, l, vis, v) ==> l == j;
      } else {
        assert IsFirstVisible(c.members, vis, r);
      }
    }
  }

  /** Exactly one member of a boolean choice is y, if and only if the choice itself comes out as y and names a
      member; otherwise all members are n. The member is the user's pick while that is visible. */
  lemma OneMemberIsYes(k: Kconfig, s: Symbol, c: Choice, vis: Visibility, v: Valuation, r: Option<Symbol>)
    requires BooleanChoice(k, c) && s in k.defs && Recorded(k, s, c, vis, v, r)
    ensures ExactlyOne(k, c, v, r) <==> ChoiceTri(k, s, v) == YES && NamesMember(c, vis, v)
    ensures !ExactlyOne(k, c, v, r) ==> forall t :: t in c.members ==> MemberTri(k, t, v, r) == NO
    ensures ChoiceTri(k, s, v) == YES && PickVisible(c, vis) && c.picked.value in c.members ==>
              MemberTri(k, c.picked.value, v, r) == YES
  {
    forall t | t in c.members
      ensures MemberTri(k, t, v, r) == if r == Some(t) && Visible(k, t, v) != NO then YES else NO
    {
      MemberValue(k, c, v, r, t);
    }
    if ChoiceTri(k, s, v) == YES {
      ChosenMember(c, vis, v, r);
    }
  }

  /** A choice that fails: its only member is visible, but its default names a visible symbol outside. */
  lemma OutsideDefaultLeavesNone(choice: Symbol, member: Symbol, other: Symbol)
    requires choice.Config? && member.Config? && other.Config? && choice != member && member != other
    requires TypeOf(choice) == TypeOf(member) == SBoolean
    ensures var shown := Definition("", [Prompt(None)], None, None);
            var k := Kconfig(map[choice := shown, member := shown], map[choice := Value(YES, "")], YES);
            var c := Choice([member], [ChoiceDefault(other, None)], None);
            var vis := map[member := YES, other := YES];
            && BooleanChoice(k, c) && ChoiceTri(k, choice, map[]) == YES
            && Visible(k, member, map[]) == YES && Chosen(c, vis, map[], Some(other))
            && Recorded(k, choice, c, vis, map[], Some(other))
            && MemberTri(k, member, map[], Some(other)) == NO
  {
    var shown := Definition("", [Prompt(None)], None, None);
    var k := Kconfig(map[choice := shown, member := shown], map[choice := Value(YES, "")], YES);
    var c := Choice([member], [ChoiceDefault(other, None)], None);
    var vis: Visibility := map[member := YES, other := YES];
    assert PromptTri(shown.props, map[]) == YES by {
      assert shown.props[..0] == [];
    }
    assert FirstUsable(c, 0, vis, map[]);
  }

  /** What a choice that is y records, in full: the pick while it is visible; or the first default with a condition
      other than n whose symbol is visible; or else the first visible member. */
  lemma RecordedAt(k: Kconfig, s: Symbol, c: Choice, vis: Visibility, v: Valuation, r: Option<Symbol>)
    returns (isDefault: bool, i: nat)
    requires s in k.defs && Recorded(k, s, c, vis, v, r) && r.Some?
    ensures ChoiceTri(k, s, v) == YES && r.value in vis && vis[r.value] != NO
    ensures c.picked.Some? && Vis(vis, c.picked.value) != NO ==> r == c.picked
    ensures r != c.picked ==>
              if isDefault then
                i < |c.defaults| && c.defaults[i].sym == r.value && EvalOpt(c.defaults[i].visible, v) != NO
                && forall j :: 0 <= j < i ==>
                     EvalOpt(c.defaults[j].visible, v) == NO || Vis(vis, c.defaults[j].sym) == NO
              else
                (forall j :: 0 <= j < |c.defaults| ==>
                   EvalOpt(c.defaults[j].visible, v) == NO || Vis(vis, c.defaults[j].sym) == NO)
                && i < |c.members| && c.members[i] == r.value
                && forall j :: 0 <= j < i ==> Visible(k, c.members[j], v) == NO
  {
    ChosenMember(c, vis, v, r);
    isDefault, i := false, 0;
    if PickVisible(c, vis) {
    } else if l :| 0 <= l < |c.defaults| && FirstUsable(c, l, vis, v) && r == Some(c.defaults[l].sym) {
      isDefault, i := true, l;
      forall j | 0 <= j < i ensures EvalOpt(c.defaults[j].visible, v) == NO || Vis(vis, c.defaults[j].sym) == NO {
        assert !Usable(c, j, vis, v);
      }
    } else {
      forall j | 0 <= j < |c.defaults|
        ensures EvalOpt(c.defaults[j].visible, v) == NO || Vis(vis, c.defaults[j].sym) == NO
      {
        assert !Usable(c, j, vis, v);
      }
      i :| 0 <= i < |c.members| && c.members[i] == r.value && forall j :: 0 <= j < i ==> Vis(vis, c.members[j]) == NO;
      forall j | 0 <= j < i ensures Visible(k, c.members[j], v) == NO {
        assert c.members[j] in c.members;
      }
    }
  }

  // ----- the user's pick -----

  lemma ChosenUnique(c: Choice, vis: Visibility, v: Valuation, r: Option<Symbol>, r': Option<Symbol>)
    requires Chosen(c, vis, v, r) && Chosen(c, vis, v, r')
    ensures r == r'
  {
    if !PickVisible(c, vis) {
      if i :| 0 <= i < |c.defaults| && FirstUsable(c, i, vis, v) {
        assert forall l :: 0 <= l < |c.defaults| && FirstUsable(c, l, vis, v) ==> l == i;
      }
    }
  }

  /** Confirming the value of a member changes no member. */
  lemma ConfirmKeepsMembers(k: Kconfig, c: Choice, vis: Visibility, v: Valuation, r: Option<Symbol>, s: Symbol,
                            r': Option<Symbol>, t: Symbol)
    requires BooleanChoice(k, c) && MembersSeen(k, c, v, vis) && s in c.members && t in c.members
    requires Chosen(c, vis, v, r) && Chosen(Pick(c, s, MemberTri(k, s, v, r)), vis, v, r')
    ensures MemberTri(k, t, v, r') == MemberTri(k, t, v, r)
  {
    MemberValue(k, c, v, r, s);
    if MemberTri(k, s, v, r) == NO {
      ChosenUnique(c, vis, v, r, r');
    }
  }

  /** sym_tristate_within_range for a member */
  predicate MemberWithinRange(k: Kconfig, s: Symbol, v: Valuation, val: Tristate)
    requires s in k.defs
  {
    var vis, stype := Visible(k, s, v), EffectiveType(s, k.modules);
    && vis != NO
    && (stype == SBoolean || stype == STristate)
    && !(stype == SBoolean && val == MOD)
    && if vis == YES then val == YES else val <= vis
  }

  /** A fully visible member takes y only, and one that is visible as m takes n or m. */
  lemma MemberRange(k: Kconfig, s: Symbol, v: Valuation, val: Tristate)
    requires s in k.defs && IsLogical(s)
    ensures MemberWithinRange(k, s, v, val) <==>
            (Visible(k, s, v) == YES && val == YES) || (Visible(k, s, v) == MOD && val != YES)
  {
  }

  /** sym_set_tristate_value for a member: y makes it the pick of the choice. */
  function Pick(c: Choice, s: Symbol, val: Tristate): Choice {
    if val == YES then c.(picked := Some(s)) else c
  }

  /** A value that a member does not have is accepted for it if and only if the choice gives it that value from
      then on, and the other members become n: a visible member can be picked, and cannot be taken back. */
  lemma PickDecides(k: Kconfig, c: Choice, vis: Visibility, v: Valuation, r: Option<Symbol>, s: Symbol, val: Tristate,
                    r': Option<Symbol>)
    requires BooleanChoice(k, c) && MembersSeen(k, c, v, vis) && s in c.members
    requires Chosen(c, vis, v, r) && MemberTri(k, s, v, r) != val
    requires Chosen(Pick(c, s, val), vis, v, r')
    ensures MemberWithinRange(k, s, v, val) <==> MemberTri(k, s, v, r') == val
    ensures MemberWithinRange(k, s, v, val) ==>
              forall t :: t in c.members && t != s ==> MemberTri(k, t, v, r') == NO
  {
    forall t | t in c.members
      ensures MemberTri(k, t, v, r) == if r == Some(t) && Visible(k, t, v) != NO then YES else NO
      ensures MemberTri(k, t, v, r') == if r' == Some(t) && Visible(k, t, v) != NO then YES else NO
    {
      MemberValue(k, c, v, r, t);
      MemberValue(k, c, v, r', t);
    }
  }
}

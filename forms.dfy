/** The choice list of the admin form: the users the super-admin may promote
    or demote, which never includes the super-admin (id 1) itself. */
module Forms {
  import opened Tables

  /** One entry of the `the_user` select field: the submitted value and the text shown. */
  datatype Choice = Choice(value: int, display: string)

  /** The entry offered for user `u`: its id, labelled "name (email)". */
  function ChoiceOf(u: User): Choice {
    Choice(u.id, u.name + " (" + u.email + ")")
  }

  /** How many users of `users` are not the super-admin (counted independently of the choices). */
  function Selectable(users: seq<User>): nat {
    if users == [] then 0 else (if users[0].id == 1 then 0 else 1) + Selectable(users[1..])
  }

  ghost predicate IdsDistinct(users: seq<User>) {
    forall i, j :: 0 <= i < j < |users| ==> users[i].id != users[j].id
  }

  ghost predicate HasSuperAdmin(users: seq<User>) {
    exists i :: 0 <= i < |users| && users[i].id == 1
  }

  /** The choices `AdminForm(users)` installs: one per user whose id is not 1,
      in the order of `users`. */
  function AdminChoices(users: seq<User>): (r: seq<Choice>)
    ensures |r| <= |users|
    ensures forall k :: 0 <= k < |r| ==> r[k].value != 1
    ensures forall k :: 0 <= k < |r| ==> exists u :: u in users && u.id != 1 && r[k] == ChoiceOf(u)
  {
    if users == [] then []
    else
      var rest := AdminChoices(users[1..]);
      assert forall u :: u in users[1..] ==> u in users;
      if users[0].id == 1 then rest else [ChoiceOf(users[0])] + rest
  }

  /** There are exactly as many choices as users other than the super-admin. */
  lemma {:induction false} AdminChoicesLength(users: seq<User>)
    ensures |AdminChoices(users)| == Selectable(users)
  {
    if users != [] {
      AdminChoicesLength(users[1..]);
    }
  }

  /** The choice of a user other than id 1 sits at the position given by the
      number of such users before it. */
  lemma {:induction false} AdminChoicesAt(users: seq<User>, i: int)
    requires 0 <= i < |users| && users[i].id != 1
    ensures Selectable(users[..i]) < |AdminChoices(users)|
    ensures AdminChoices(users)[Selectable(users[..i])] == ChoiceOf(users[i])
  {
    if i > 0 {
      AdminChoicesAt(users[1..], i - 1);
      assert users[1..][..i - 1] == users[..i][1..];
    }
  }

  lemma {:induction false} SelectableGrows(users: seq<User>, i: int, j: int)
    requires 0 <= i < j <= |users| && users[i].id != 1
    ensures Selectable(users[..i]) < Selectable(users[..j])
  {
    if i > 0 {
      SelectableGrows(users[1..], i - 1, j - 1);
      assert users[1..][..i - 1] == users[..i][1..];
      assert users[1..][..j - 1] == users[..j][1..];
    } else {
      assert users[..j][1..] == users[1..j];
    }
  }

  /** Two users other than id 1 appear in the choices in the order they have in `users`. */
  lemma AdminChoicesKeepOrder(users: seq<User>, i: int, j: int)
    requires 0 <= i < j < |users| && users[i].id != 1 && users[j].id != 1
    ensures exists p, q :: 0 <= p < q < |AdminChoices(users)|
                           && AdminChoices(users)[p] == ChoiceOf(users[i])
                           && AdminChoices(users)[q] == ChoiceOf(users[j])
  {
    AdminChoicesAt(users, i);
    AdminChoicesAt(users, j);
    SelectableGrows(users, i, j);
  }

  /** When the ids are distinct (as primary keys are), no value is offered twice. */
  lemma {:induction false} AdminChoicesDistinct(users: seq<User>)
    requires IdsDistinct(users)
    ensures forall p, q :: 0 <= p < q < |AdminChoices(users)| ==>
                             AdminChoices(users)[p].value != AdminChoices(users)[q].value
  {
    if users != [] {
      var rest := users[1..];
      assert IdsDistinct(rest) by {
        forall i, j | 0 <= i < j < |rest| ensures rest[i].id != rest[j].id {
          assert rest[i] == users[i + 1] && rest[j] == users[j + 1];
        }
      }
      AdminChoicesDistinct(rest);
      forall u | u in rest ensures u.id != users[0].id {
        var k :| 0 <= k < |rest| && rest[k] == u;
        assert u == users[k + 1];
      }
    }
  }

  /** With distinct ids, the number of choices is the number of users, less one
      when the super-admin is among them. */
  lemma {:induction false} AdminChoicesCount(users: seq<User>)
    requires IdsDistinct(users)
    ensures |AdminChoices(users)| == if HasSuperAdmin(users) then |users| - 1 else |users|
  {
    if users != [] {
      var rest := users[1..];
      assert IdsDistinct(rest) by {
        forall i, j | 0 <= i < j < |rest| ensures rest[i].id != rest[j].id {
          assert rest[i] == users[i + 1] && rest[j] == users[j + 1];
        }
      }
      AdminChoicesCount(rest);
      if users[0].id == 1 {
        assert HasSuperAdmin(users);
        assert !HasSuperAdmin(rest) by {
          forall k | 0 <= k < |rest| ensures rest[k].id != 1 {
            assert rest[k] == users[k + 1];
          }
        }
      } else {
        assert HasSuperAdmin(users) == HasSuperAdmin(rest) by {
          if HasSuperAdmin(users) {
            var k :| 0 <= k < |users| && users[k].id == 1;
            assert rest[k - 1] == users[k];
          }
          if HasSuperAdmin(rest) {
            var k :| 0 <= k < |rest| && rest[k].id == 1;
            assert users[k + 1] == rest[k];
          }
        }
      }
    }
  }
}

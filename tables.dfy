/** The two database tables of the service, as sequences of rows, and the queries the
    endpoints run on them. */
module Tables {
  import opened Outcomes

  /** A row of `users`: `email` is a unique column; `createdAt` is the insertion time. */
  datatype User = User(id: int, email: string, passwordHash: string, createdAt: int)

  /** A row of `notes`: `id` is the auto-increment primary key. */
  datatype Note = Note(id: int, ownerEmail: string, title: string, content: string, createdAt: int)

  /** The unique constraint on `users.email`. */
  ghost predicate UniqueEmails(users: seq<User>) {
    forall i, j | 0 <= i < |users| && 0 <= j < |users| && i != j :: users[i].email != users[j].email
  }

  /** The primary key of `users`. */
  ghost predicate UniqueUserIds(users: seq<User>) {
    forall i, j | 0 <= i < |users| && 0 <= j < |users| && i != j :: users[i].id != users[j].id
  }

  /** The primary key of `notes`. */
  ghost predicate UniqueIds(notes: seq<Note>) {
    forall i, j | 0 <= i < |notes| && 0 <= j < |notes| && i != j :: notes[i].id != notes[j].id
  }

  ghost predicate StrictlyDescendingIds(notes: seq<Note>) {
    forall i, j | 0 <= i < j < |notes| :: notes[i].id > notes[j].id
  }

  /** `query(User).filter(User.email == email).first()`. */
  function FindUser(users: seq<User>, email: string): (r: Option<User>)
    ensures r.Some? ==> r.value in users && r.value.email == email
    ensures r.None? <==> forall u | u in users :: u.email != email
  {
    if users == [] then None
    else if users[0].email == email then Some(users[0])
    else FindUser(users[1..], email)
  }

  /** Under the unique constraint the lookup finds exactly the user with that email. */
  lemma FindUserUnique(users: seq<User>, u: User)
    requires UniqueEmails(users)
    requires u in users
    ensures FindUser(users, u.email) == Some(u)
  {
  }

  /** `query(Note).filter(Note.id == id, Note.owner_email == owner).first()`, as the
      position of that row. */
  function FindOwnedNote(notes: seq<Note>, id: int, owner: string): (r: Option<nat>)
    ensures r.Some? ==> r.value < |notes| && notes[r.value].id == id && notes[r.value].ownerEmail == owner
    ensures r.None? <==> forall n | n in notes :: n.id != id || n.ownerEmail != owner
  {
    if notes == [] then None
    else if notes[0].id == id && notes[0].ownerEmail == owner then Some(0)
    else match FindOwnedNote(notes[1..], id, owner)
      case None => None
      case Some(k) => Some(k + 1)
  }

  /** `filter(Note.owner_email == owner)`. */
  function OwnedBy(notes: seq<Note>, owner: string): (r: seq<Note>)
    ensures forall n :: n in r <==> n in notes && n.ownerEmail == owner
  {
    if notes == [] then []
    else if notes[0].ownerEmail == owner then [notes[0]] + OwnedBy(notes[1..], owner)
    else OwnedBy(notes[1..], owner)
  }

  lemma {:induction false} OwnedByKeepsUniqueIds(notes: seq<Note>, owner: string)
    ensures UniqueIds(notes) ==> UniqueIds(OwnedBy(notes, owner))
  {
    if notes != [] && UniqueIds(notes) {
      var tail := notes[1..];
      assert UniqueIds(tail) by {
        forall i, j | 0 <= i < |tail| && 0 <= j < |tail| && i != j ensures tail[i].id != tail[j].id {
          assert tail[i] == notes[i + 1] && tail[j] == notes[j + 1];
        }
      }
      OwnedByKeepsUniqueIds(tail, owner);
      if notes[0].ownerEmail == owner {
        var rest := OwnedBy(tail, owner);
        forall m | m in rest ensures m.id != notes[0].id {
          var k :| 0 <= k < |tail| && tail[k] == m;
          assert notes[k + 1] == m;
        }
        var r := [notes[0]] + rest;
        forall i, j | 0 <= i < |r| && 0 <= j < |r| && i != j ensures r[i].id != r[j].id {
          if i != 0 && j != 0 {
            assert r[i] == rest[i - 1] && r[j] == rest[j - 1];
          } else if i == 0 {
            assert r[j] == rest[j - 1] && r[j] in rest;
          } else {
            assert r[i] == rest[i - 1] && r[i] in rest;
          }
        }
      }
    }
  }

  /** Places `n` in front of the first row with a smaller id. */
  function InsertByIdDesc(n: Note, rows: seq<Note>): (r: seq<Note>)
    ensures multiset(r) == multiset(rows) + multiset{n}
    ensures forall m :: m in r <==> m in rows || m == n
  {
    if rows == [] || rows[0].id < n.id then [n] + rows
    else
      assert rows == [rows[0]] + rows[1..];
      [rows[0]] + InsertByIdDesc(n, rows[1..])
  }

  /** `order_by(Note.id.desc())`. */
  function SortByIdDesc(rows: seq<Note>): (r: seq<Note>)
    ensures multiset(r) == multiset(rows)
    ensures forall m :: m in r <==> m in rows
  {
    if rows == [] then []
    else
      assert rows == [rows[0]] + rows[1..];
      InsertByIdDesc(rows[0], SortByIdDesc(rows[1..]))
  }

  lemma {:induction false} InsertKeepsDescending(n: Note, rows: seq<Note>)
    requires StrictlyDescendingIds(rows)
    requires forall m | m in rows :: m.id != n.id
    ensures StrictlyDescendingIds(InsertByIdDesc(n, rows))
  {
    if rows != [] && rows[0].id >= n.id {
      var tail := rows[1..];
      assert StrictlyDescendingIds(tail) by {
        forall i, j | 0 <= i < j < |tail| ensures tail[i].id > tail[j].id {
          assert tail[i] == rows[i + 1] && tail[j] == rows[j + 1];
        }
      }
      InsertKeepsDescending(n, tail);
      var rest := InsertByIdDesc(n, tail);
      forall m | m in rest ensures rows[0].id > m.id {
        if m != n {
          var k :| 0 <= k < |tail| && tail[k] == m;
          assert rows[k + 1] == m;
        }
      }
      var r := [rows[0]] + rest;
      forall i, j | 0 <= i < j < |r| ensures r[i].id > r[j].id {
        if i == 0 {
          assert r[j] == rest[j - 1] && r[j] in rest;
        } else {
          assert r[i] == rest[i - 1] && r[j] == rest[j - 1];
        }
      }
    }
  }

  lemma {:induction false} SortIsDescending(rows: seq<Note>)
    ensures UniqueIds(rows) ==> StrictlyDescendingIds(SortByIdDesc(rows))
  {
    if rows != [] && UniqueIds(rows) {
      var tail := rows[1..];
      assert UniqueIds(tail) by {
        forall i, j | 0 <= i < |tail| && 0 <= j < |tail| && i != j ensures tail[i].id != tail[j].id {
          assert tail[i] == rows[i + 1] && tail[j] == rows[j + 1];
        }
      }
      SortIsDescending(tail);
      var sorted := SortByIdDesc(tail);
      forall m | m in sorted ensures m.id != rows[0].id {
        var k :| 0 <= k < |tail| && tail[k] == m;
        assert rows[k + 1] == m;
      }
      InsertKeepsDescending(rows[0], sorted);
    }
  }

  /** The `list_notes` query: the owner's notes, newest id first. */
  function OwnedNewestFirst(notes: seq<Note>, owner: string): (r: seq<Note>)
    ensures forall n :: n in r <==> n in notes && n.ownerEmail == owner
    ensures multiset(r) == multiset(OwnedBy(notes, owner))
    ensures UniqueIds(notes) ==> StrictlyDescendingIds(r)
  {
    var owned := OwnedBy(notes, owner);
    OwnedByKeepsUniqueIds(notes, owner);
    SortIsDescending(owned);
    SortByIdDesc(owned)
  }

  /** `DELETE FROM notes WHERE id = id`. */
  function WithoutId(notes: seq<Note>, id: int): (r: seq<Note>)
    ensures forall n :: n in r <==> n in notes && n.id != id
  {
    if notes == [] then []
    else if notes[0].id == id then WithoutId(notes[1..], id)
    else [notes[0]] + WithoutId(notes[1..], id)
  }

  /** With ids unique, deleting by the id of one row removes that row and no other. */
  lemma {:induction false} WithoutIdRemovesOne(notes: seq<Note>, i: nat)
    requires UniqueIds(notes)
    requires i < |notes|
    ensures WithoutId(notes, notes[i].id) == notes[..i] + notes[i + 1..]
  {
    var id := notes[i].id;
    var tail := notes[1..];
    assert UniqueIds(tail) by {
      forall a, b | 0 <= a < |tail| && 0 <= b < |tail| && a != b ensures tail[a].id != tail[b].id {
        assert tail[a] == notes[a + 1] && tail[b] == notes[b + 1];
      }
    }
    if i == 0 {
      KeepsAllOtherIds(tail, id);
      assert notes[..0] + notes[1..] == tail;
    } else {
      assert notes[0].id != id;
      WithoutIdRemovesOne(tail, i - 1);
      assert tail[i - 1] == notes[i];
      assert notes[..i] + notes[i + 1..] == [notes[0]] + (tail[..i - 1] + tail[i..]);
    }
  }

  lemma {:induction false} KeepsAllOtherIds(notes: seq<Note>, id: int)
    requires forall n | n in notes :: n.id != id
    ensures WithoutId(notes, id) == notes
  {
    if notes != [] {
      KeepsAllOtherIds(notes[1..], id);
    }
  }
}

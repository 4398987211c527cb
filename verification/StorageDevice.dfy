/** The contact storage device: a table of users, one pending reply, and the requests that change them. */
module StorageDevice {
  import opened Sums
  import opened Words

  const MAX_INP := 1023
  const USER_COUNT := 1024
  const OUTPUT_SIZE := 2048
  const EINVAL := 22

  datatype User = User(name: string, surname: string, age: string, phone: string, email: string, taken: bool)

  const NO_USER := User("", "", "", "", "", false)

  /** Stored fields are C strings that came out of one request. */
  predicate Small(u: User) {
    && NUL !in u.name && NUL !in u.surname && NUL !in u.age && NUL !in u.phone && NUL !in u.email
    && |u.name| + |u.surname| + |u.age| + |u.phone| + |u.email| <= MAX_INP
  }

  // ---- what a request does ----

  const GET_FORMAT := "BAD REQUEST\nformat: get <username>\n"
  const ADD_FORMAT := "BAD REQUEST\nformat: " + "add <name> <surname> <age> <phone> <email>\n"
  const DELETE_FORMAT := "BAD REQUEST\nformat: delete <surname>\n"
  const BAD_REQUEST := "BAD REQUEST\nUse one of the following " + "commands: [add, get, delete]\n"
  const NO_CELL := "INTERNAL ERROR\nNo free cells to store data\n"

  predicate IsFreeCell(u: User) { !u.taken }

  function Found(u: User): string {
    "FOUND\nName: " + u.name + "\nSurname: " + u.surname + "\nAge: " + u.age
    + "\nPhone: " + u.phone + "\nEmail: " + u.email + "\n"
  }

  /** The first taken cell with this surname, or -1. */
  function Find(users: seq<User>, surname: string): (r: int)
    ensures -1 <= r < |users|
    ensures r >= 0 ==> users[r].taken && users[r].surname == surname
    ensures r >= 0 ==> forall k | 0 <= k < r :: !(users[k].taken && users[k].surname == surname)
    ensures r == -1 <==> forall k | 0 <= k < |users| :: !(users[k].taken && users[k].surname == surname)
  {
    Least((u: User) => u.taken && u.surname == surname, users)
  }

  /** The table and the reply after a request of the words `ws`. */
  function Respond(users: seq<User>, ws: seq<string>): (seq<User>, string)
    requires ws != []
  {
    if ws[0] == "get" then
      if |ws| != 2 then (users, GET_FORMAT)
      else
        var r := Find(users, ws[1]);
        (users, if r < 0 then "NOT FOUND\n" else Found(users[r]))
    else if ws[0] == "add" then
      if |ws| != 6 then (users, ADD_FORMAT)
      else
        var r := Least(IsFreeCell, users);
        if r < 0 then (users, NO_CELL) else (users[r := User(ws[1], ws[2], ws[3], ws[4], ws[5], true)], "OK\n")
    else if ws[0] == "delete" then
      if |ws| != 2 then (users, DELETE_FORMAT)
      else
        var r := Find(users, ws[1]);
        if r < 0 then (users, "NOT FOUND\n") else (users[r := users[r].(taken := false)], "OK\n")
    else (users, BAD_REQUEST)
  }

  /** What the device keeps about a reply: it is a C string that fits the buffer with its terminator. */
  predicate Printable(s: string) {
    NUL !in s && |s| < OUTPUT_SIZE
  }

  lemma FoundPrintable(u: User)
    requires Small(u)
    ensures Printable(Found(u))
  {
    var a := "FOUND\nName: " + u.name + "\nSurname: ";
    var b := a + u.surname + "\nAge: " + u.age;
    assert Found(u) == b + "\nPhone: " + u.phone + "\nEmail: " + u.email + "\n";
    assert NUL !in a && NUL !in b;
  }

  lemma ConstantsPrintable()
    ensures Printable(GET_FORMAT) && Printable(ADD_FORMAT) && Printable(DELETE_FORMAT)
    ensures Printable(BAD_REQUEST) && Printable(NO_CELL) && Printable("NOT FOUND\n") && Printable("OK\n")
  {
    hide Printable;
    AddFormatPrintable();
    BadRequestPrintable();
    GetFormatPrintable();
    DeleteFormatPrintable();
    NoCellPrintable();
    NotFoundPrintable();
    OkPrintable();
  }

  lemma AddFormatPrintable()
    ensures Printable(ADD_FORMAT)
  {
  }

  lemma BadRequestPrintable()
    ensures Printable(BAD_REQUEST)
  {
  }

  lemma GetFormatPrintable()
    ensures Printable(GET_FORMAT)
  {
  }

  lemma DeleteFormatPrintable()
    ensures Printable(DELETE_FORMAT)
  {
  }

  lemma NoCellPrintable()
    ensures Printable(NO_CELL)
  {
  }

  lemma NotFoundPrintable()
    ensures Printable("NOT FOUND\n")
  {
  }

  lemma OkPrintable()
    ensures Printable("OK\n")
  {
  }

  lemma WordsAreText(s: string)
    requires NUL !in s
    ensures forall k | 0 <= k < |WordsOf(RequestSpace, s)| :: NUL !in WordsOf(RequestSpace, s)[k]
    ensures TotalLength(WordsOf(RequestSpace, s)) <= |s|
  {
    WordsFit(RequestSpace, s, 0);
  }

  /** Any request of at most 1023 bytes keeps every stored user small and gets a reply that fits. */
  lemma RespondFits(users: seq<User>, s: string)
    requires forall k | 0 <= k < |users| :: Small(users[k])
    requires NUL !in s && |s| <= MAX_INP && WordsOf(RequestSpace, s) != []
    ensures var (users', reply) := Respond(users, WordsOf(RequestSpace, s));
            && |users'| == |users| && Printable(reply)
            && forall k | 0 <= k < |users'| :: Small(users'[k])
  {
    hide Printable, Found, WordsOf;
    var ws := WordsOf(RequestSpace, s);
    WordsAreText(s);
    ConstantsPrintable();
    if ws[0] == "get" && |ws| == 2 && Find(users, ws[1]) >= 0 {
      FoundPrintable(users[Find(users, ws[1])]);
    }
    if ws[0] == "add" && |ws| == 6 {
      FiveFields(ws);
    }
  }

  lemma FiveFields(ws: seq<string>)
    requires |ws| == 6
    ensures |ws[1]| + |ws[2]| + |ws[3]| + |ws[4]| + |ws[5]| <= TotalLength(ws)
  {
    TotalStep(ws, 5);
    TotalStep(ws, 4);
    TotalStep(ws, 3);
    TotalStep(ws, 2);
    TotalStep(ws, 1);
    TotalStep(ws, 0);
  }

  lemma TotalStep(ws: seq<string>, k: nat)
    requires k < |ws|
    ensures TotalLength(ws[k..]) == |ws[k]| + TotalLength(ws[k + 1..])
    ensures ws[0..] == ws
  {
    assert ws[k..][1..] == ws[k + 1..];
  }

  // ---- add, get, delete ----

  /** Cell `r` is taken with this surname, and none before it is. */
  predicate FirstTaken(users: seq<User>, surname: string, r: nat) {
    && r < |users| && users[r].taken && users[r].surname == surname
    && forall k | 0 <= k < r :: !(users[k].taken && users[k].surname == surname)
  }

  /** `get`: the record of the first taken cell with the surname, field by field; the table stays. */
  lemma GetMeans(users: seq<User>, surname: string, r: nat)
    ensures (forall k | 0 <= k < |users| :: !(users[k].taken && users[k].surname == surname)) ==>
              Respond(users, ["get", surname]) == (users, "NOT FOUND\n")
    ensures r < |users| && users[r].taken && users[r].surname == surname
            && (forall k | 0 <= k < r :: !(users[k].taken && users[k].surname == surname)) ==>
              var u := users[r];
              Respond(users, ["get", surname]) ==
                (users, "FOUND\nName: " + u.name + "\nSurname: " + u.surname + "\nAge: " + u.age
                        + "\nPhone: " + u.phone + "\nEmail: " + u.email + "\n")
  {
    if FirstTaken(users, surname, r) { FindIs(users, surname, r); }
  }

  lemma FindIs(users: seq<User>, surname: string, r: nat)
    requires FirstTaken(users, surname, r)
    ensures Find(users, surname) == r
  {
    hide Find;
    var f := Find(users, surname);
    assert f >= 0;
  }

  /** `delete`: frees the first taken cell with the surname, keeping its fields, and no other; with none the table
      stays. */
  lemma DeleteMeans(users: seq<User>, surname: string, r: nat)
    ensures (forall k | 0 <= k < |users| :: !(users[k].taken && users[k].surname == surname)) ==>
              Respond(users, ["delete", surname]) == (users, "NOT FOUND\n")
    ensures r < |users| && users[r].taken && users[r].surname == surname
            && (forall k | 0 <= k < r :: !(users[k].taken && users[k].surname == surname)) ==>
              var (users', reply) := Respond(users, ["delete", surname]);
              && reply == "OK\n" && |users'| == |users|
              && !users'[r].taken && users'[r].(taken := true) == users[r]
              && forall k | 0 <= k < |users| && k != r :: users'[k] == users[k]
  {
    if FirstTaken(users, surname, r) { FindIs(users, surname, r); }
  }

  /** `add`: fills the first free cell with the five words in their order, and no other; with none the table stays. */
  lemma AddMeans(users: seq<User>, ws: seq<string>, r: nat)
    requires |ws| == 6 && ws[0] == "add"
    ensures (forall k | 0 <= k < |users| :: users[k].taken) ==>
              Respond(users, ws) == (users, "INTERNAL ERROR\nNo free cells to store data\n")
    ensures r < |users| && !users[r].taken && (forall k | 0 <= k < r :: users[k].taken) ==>
              var (users', reply) := Respond(users, ws);
              && reply == "OK\n" && |users'| == |users| && users'[r].taken
              && users'[r].name == ws[1] && users'[r].surname == ws[2] && users'[r].age == ws[3]
              && users'[r].phone == ws[4] && users'[r].email == ws[5]
              && forall k | 0 <= k < |users| && k != r :: users'[k] == users[k]
  {
    forall k | 0 <= k < |users| ensures IsFreeCell(users[k]) <==> !users[k].taken {}
    var f := Least(IsFreeCell, users);
  }

  /** Requests with the wrong number of words, and those with another first word, leave the table alone. */
  lemma MalformedMeans(users: seq<User>, ws: seq<string>)
    requires ws != []
    ensures ws[0] == "get" && |ws| != 2 ==>
              Respond(users, ws) == (users, "BAD REQUEST\nformat: get <username>\n")
    ensures ws[0] == "add" && |ws| != 6 ==>
              Respond(users, ws) == (users, "BAD REQUEST\nformat: " + "add <name> <surname> <age> <phone> <email>\n")
    ensures ws[0] == "delete" && |ws| != 2 ==>
              Respond(users, ws) == (users, "BAD REQUEST\nformat: delete <surname>\n")
    ensures ws[0] != "get" && ws[0] != "add" && ws[0] != "delete" ==>
              Respond(users, ws) == (users, "BAD REQUEST\nUse one of the following " + "commands: [add, get, delete]\n")
  {
  }

  /** The user an `add` request stores. */
  function Added(ws: seq<string>): User
    requires |ws| == 6
  {
    User(ws[1], ws[2], ws[3], ws[4], ws[5], true)
  }

  /** After a successful `add`, `get` with that surname shows the user just added, word for word, exactly when no cell
      before it is taken with the surname; otherwise it shows the first such cell. */
  lemma AddThenGet(users: seq<User>, ws: seq<string>, c: nat)
    requires |ws| == 6 && ws[0] == "add"
    requires c < |users| && !users[c].taken && forall k | 0 <= k < c :: users[k].taken
    ensures var users' := Respond(users, ws).0;
            && ((forall k | 0 <= k < c :: users[k].surname != ws[2]) ==>
                  Respond(users', ["get", ws[2]]) ==
                    (users', "FOUND\nName: " + ws[1] + "\nSurname: " + ws[2] + "\nAge: " + ws[3]
                             + "\nPhone: " + ws[4] + "\nEmail: " + ws[5] + "\n"))
            && (forall r: nat | r < c && FirstTaken(users, ws[2], r) ::
                  var u := users[r];
                  Respond(users', ["get", ws[2]]) ==
                    (users', "FOUND\nName: " + u.name + "\nSurname: " + u.surname + "\nAge: " + u.age
                             + "\nPhone: " + u.phone + "\nEmail: " + u.email + "\n"))
  {
    hide Respond;
    AddMeans(users, ws, c);
    var users' := Respond(users, ws).0;
    GetMeans(users', ws[2], c);
    if forall k | 0 <= k < c :: users[k].surname != ws[2] { assert FirstTaken(users', ws[2], c); }
    forall r: nat | r < c && FirstTaken(users, ws[2], r)
      ensures FirstTaken(users', ws[2], r) && users'[r] == users[r]
    {
    }
    forall r: nat | r < c && FirstTaken(users', ws[2], r) { GetMeans(users', ws[2], r); }
  }

  /** The users in taken cells, by cell. */
  ghost function Stored(users: seq<User>): map<nat, User> {
    map k | 0 <= k < |users| && users[k].taken :: users[k]
  }

  /** `delete` undoes `add` for a surname that was not stored before. */
  lemma AddThenDelete(users: seq<User>, ws: seq<string>)
    requires |ws| == 6 && ws[0] == "add" && Least(IsFreeCell, users) >= 0 && Find(users, ws[2]) < 0
    ensures var users' := Respond(users, ws).0;
            var (users'', reply) := Respond(users', ["delete", ws[2]]);
            Stored(users') == Stored(users)[Least(IsFreeCell, users) as nat := Added(ws)]
            && reply == "OK\n" && Stored(users'') == Stored(users)
  {
    var c := Least(IsFreeCell, users);
    var users' := Respond(users, ws).0;
    assert users'[c].taken && users'[c].surname == ws[2];
    forall k | 0 <= k < |users| && k != c ensures users'[k] == users[k] {}
    assert Find(users', ws[2]) == c;
    assert !IsFreeCell(users'[c]) && IsFreeCell(users[c]);
  }

  // ---- the device ----

  class Device {
    const users: array<User>
    const output: array<char>
    var next: nat       // where the unread part of the reply begins
    var replied: bool   // the read pointer is set by the first reply

    ghost predicate Valid()
      reads this, users, output
    {
      && users.Length == USER_COUNT && output.Length == OUTPUT_SIZE
      && (forall k | 0 <= k < users.Length :: Small(users[k]))
      && next < output.Length && (replied ==> NUL in output[next..])
    }

    /** The part of the reply not read yet. */
    ghost function Pending(): string
      reads this, output
    {
      if next <= output.Length then CString(output[next..]) else ""
    }

    constructor ()
      ensures Valid() && !replied && users.Length == 1024 && output.Length == 2048
      ensures forall k | 0 <= k < users.Length :: !users[k].taken
      ensures fresh(users) && fresh(output)
    {
      users := new User[USER_COUNT](_ => NO_USER);
      output := new char[OUTPUT_SIZE](_ => NUL);
      next := 0;
      replied := false;
    }

    /** Put a reply into the output buffer. */
    method SetMessage(message: string)
      requires output.Length == OUTPUT_SIZE && Printable(message)
      modifies this, output
      ensures next < output.Length && replied && NUL in output[next..] && Pending() == message
    {
      forall k | 0 <= k < |message| { output[k] := message[k]; }
      output[|message|] := NUL;
      next := 0;
      replied := true;
      assert output[next..][..|message|] == message;
      assert output[next..][|message|] == NUL;
      CStringIs(output[next..], |message|);
    }

    /** Read up to `len` bytes: the next part of the reply, and nothing once it is used up. */
    method Read(len: nat) returns (data: string)
      requires Valid() && replied
      modifies this`next
      ensures Valid()
      ensures var n := if len < |old(Pending())| then len else |old(Pending())|;
              data == old(Pending())[..n] && Pending() == old(Pending())[n..]
    {
      hide Small, CString;
      data := "";
      ghost var reply := Pending();
      while |data| < len && output[next] != NUL
        invariant next < output.Length && NUL in output[next..]
        invariant |data| <= len && data + CString(output[next..]) == reply
        decreases len - |data|
      {
        OneMore(data, output[next..], reply);
        assert output[next..][1..] == output[next + 1..];
        data := data + [output[next]];
        next := next + 1;
      }
      NextChar(output[next..]);
      PrefixOf(data, CString(output[next..]), reply);
    }

    method FindUser(surname: string) returns (r: int)
      requires Valid()
      ensures r == Find(users[..], surname)
    {
      var index := 0;
      while index < users.Length
        invariant 0 <= index <= users.Length
        invariant forall k | 0 <= k < index :: !(users[..][k].taken && users[..][k].surname == surname)
      {
        if users[index].taken && users[index].surname == surname {
          assert users[..][index].taken;
          return index;
        }
        index := index + 1;
      }
      return -1;
    }

    method FindFree() returns (r: int)
      requires Valid()
      ensures r == Least(IsFreeCell, users[..])
    {
      var index := 0;
      while index < users.Length
        invariant 0 <= index <= users.Length
        invariant forall k | 0 <= k < index :: !IsFreeCell(users[..][k])
      {
        if !users[index].taken {
          assert IsFreeCell(users[..][index]);
          return index;
        }
        index := index + 1;
      }
      return -1;
    }

    /** Perform the request of the words `ws`. */
    method Perform(ws: seq<string>, ghost s: string)
      requires Valid() && NUL !in s && |s| <= MAX_INP && ws == WordsOf(RequestSpace, s) != []
      modifies this, users, output
      ensures Valid() && replied
      ensures (users[..], Pending()) == Respond(old(users[..]), ws)
    {
      hide WordsOf, Printable, Found, Find, CString;
      RespondFits(users[..], s);
      ConstantsPrintable();
      ghost var before := users[..];
      var reply := BAD_REQUEST;
      if ws[0] == "get" {
        reply := GET_FORMAT;
        if |ws| == 2 {
          var r := FindUser(ws[1]);
          reply := if r < 0 then "NOT FOUND\n" else Found(users[r]);
        }
      } else if ws[0] == "add" {
        reply := ADD_FORMAT;
        if |ws| == 6 {
          var r := FindFree();
          reply := NO_CELL;
          if r >= 0 {
            users[r] := User(ws[1], ws[2], ws[3], ws[4], ws[5], true);
            reply := "OK\n";
          }
        }
      } else if ws[0] == "delete" {
        reply := DELETE_FORMAT;
        if |ws| == 2 {
          var r := FindUser(ws[1]);
          reply := "NOT FOUND\n";
          if r >= 0 {
            users[r] := users[r].(taken := false);
            reply := "OK\n";
          }
        }
      }
      assert (users[..], reply) == Respond(before, ws);
      assert forall k | 0 <= k < users.Length :: users[k] == users[..][k];
      SetMessage(reply);
    }

    /** `device_write`: refuse long and empty requests, else split and perform. The program reads every pointer the
        split announces; when one of them was never set its behaviour is undefined, and the model ends the call there. */
    method Write(request: string) returns (n: int, defined: bool)
      requires Valid()
      modifies this, users, output
      ensures Valid()
      ensures defined <==> |request| > 1023 || Unbroken(RequestSpace, request)
      ensures var ws := WordsOf(RequestSpace, CString(request));
              if !defined || |request| > 1023 || ws == [] then
                && users[..] == old(users[..]) && Pending() == old(Pending()) && replied == old(replied)
                && (defined ==> n == -22)
              else
                n == |request| && replied && (users[..], Pending()) == Respond(old(users[..]), ws)
    {
      hide CString, Unbroken, WordsOf, Small;
      n, defined := -EINVAL, true;
      if |request| <= MAX_INP {
        var ws;
        defined, ws := LocalWords(request);
        if defined && ws != [] {
          CStringPrefix(request);
          Perform(ws, CString(request));
          n := |request|;
        }
      }
    }

    /** Copy the request, cut the copy, and read the words at the pointers, if all of them are set. */
    static method LocalWords(request: string) returns (whole: bool, ws: seq<string>)
      requires |request| <= MAX_INP
      ensures whole <==> Unbroken(RequestSpace, request)
      ensures whole ==> ws == WordsOf(RequestSpace, CString(request))
    {
      hide Spans, CString, Unbroken;
      var local := new char[MAX_INP + 1];
      var length := |request|;
      forall k | 0 <= k < length { local[k] := request[k]; }
      local[length] := NUL;
      assert local[..length] == request;
      label Copied:
      var count, tokens := SplitRequest(local, length);
      EveryPointerIff(RequestSpace, request);
      ghost var text := CString(request);
      PointersHold(request, old@Copied(local[..]), local[..], length, tokens);
      whole := |tokens| == count;
      ws := [];
      var index := 0;
      while index < |tokens|
        invariant 0 <= index <= |tokens| && ws == WordsOf(RequestSpace, text)[..index]
      {
        assert local[..][tokens[index]..] == local[tokens[index]..];
        ws := ws + [CString(local[tokens[index]..])];
        index := index + 1;
      }
    }
  }

  /** After the cut every pointer leads to its word. */
  lemma PointersHold(request: string, before: string, after: string, length: nat, tokens: seq<nat>)
    requires length < |before| == |after| && before[..length] == request && before[length] == NUL
    requires var p := CString(request);
             && |p| <= length && after[..|p|] == CutBuffer(p, |p|) && after[|p|..] == before[|p|..]
             && |tokens| == |Spans(RequestSpace, p, 0)|
             && forall k | 0 <= k < |tokens| :: tokens[k] == Spans(RequestSpace, p, 0)[k].lo
    ensures var ws := WordsOf(RequestSpace, CString(request));
            |ws| == |tokens|
            && forall k | 0 <= k < |tokens| :: tokens[k] <= |after| && CString(after[tokens[k]..]) == ws[k]
  {
    hide Spans, CString, CutBuffer, Slices;
    var p := CString(request);
    CStringPrefix(request);
    TerminatorBehind(request, before, after, length, p);
    forall k | 0 <= k < |tokens|
      ensures tokens[k] <= |after| && CString(after[tokens[k]..]) == WordsOf(RequestSpace, p)[k]
    {
      PointersReadWords(p, after, k);
    }
  }

  lemma TerminatorBehind(request: string, before: string, after: string, length: nat, p: string)
    requires length < |before| == |after| && before[..length] == request && before[length] == NUL
    requires |p| <= length && (|p| < length ==> request[|p|] == NUL)
    requires after[..|p|] == CutBuffer(p, |p|) && after[|p|..] == before[|p|..]
    ensures CutBuffer(p, |p|) + [NUL] <= after
  {
    assert after[|p|] == after[|p|..][0] == before[|p|..][0] == before[|p|];
    assert after[..|p| + 1] == CutBuffer(p, |p|) + [NUL];
  }

  lemma OneMore(data: string, s: string, reply: string)
    requires s != "" && NUL in s && s[0] != NUL && data + CString(s) == reply
    ensures data + [s[0]] + CString(s[1..]) == reply && s[1..] != "" && NUL in s[1..]
  {
    NextChar(s);
  }

  lemma PrefixOf(a: string, b: string, all: string)
    requires a + b == all
    ensures a == all[..|a|] && b == all[|a|..] && |a| <= |all|
    ensures b == "" ==> |a| == |all|
  {
  }

  lemma NextChar(s: string)
    requires s != "" && NUL in s
    ensures s[0] == NUL ==> CString(s) == ""
    ensures s[0] != NUL ==> CString(s) == [s[0]] + CString(s[1..]) && s[1..] != "" && NUL in s[1..]
  {
  }

  // ---- reading in pieces ----

  function Concat(ds: seq<string>): string {
    if ds == [] then "" else Concat(ds[..|ds| - 1]) + ds[|ds| - 1]
  }

  /** What reads of the sizes `lens` return, and what they leave. */
  function Pieces(reply: string, lens: seq<nat>): (r: (seq<string>, string))
    ensures |r.0| == |lens|
  {
    if lens == [] then ([], reply)
    else
      var n := |lens| - 1;
      var (ds, left) := Pieces(reply, lens[..n]);
      var k := if lens[n] < |left| then lens[n] else |left|;
      (ds + [left[..k]], left[k..])
  }

  /** Reads of any sizes return the reply once and in order; what they leave is the rest of it. */
  lemma {:induction false} PiecesExact(reply: string, lens: seq<nat>)
    ensures Concat(Pieces(reply, lens).0) + Pieces(reply, lens).1 == reply
    ensures forall k | 0 <= k < |lens| :: |Pieces(reply, lens).0[k]| <= lens[k]
  {
    if lens != [] {
      var n := |lens| - 1;
      PiecesExact(reply, lens[..n]);
      var (ds, left) := Pieces(reply, lens[..n]);
      var k := if lens[n] < |left| then lens[n] else |left|;
      ConcatMore(ds, left[..k]);
      Rejoin(Concat(ds), left, k);
    }
  }

  lemma Rejoin(a: string, b: string, k: nat)
    requires k <= |b|
    ensures a + b[..k] + b[k..] == a + b
  {
  }

  /** A read that asks for something returns nothing exactly when all of the reply was read before. */
  lemma EndOfReply(reply: string, lens: seq<nat>, len: nat)
    requires len > 0
    ensures Pieces(reply, lens + [len]).0[|lens|] == "" <==> Concat(Pieces(reply, lens).0) == reply
  {
    PiecesExact(reply, lens);
    assert (lens + [len])[..|lens|] == lens;
    var (ds, left) := Pieces(reply, lens);
    assert Concat(ds) + left == reply;
  }

  /** The device read in any pieces. */
  method Drain(dev: Device, lens: seq<nat>) returns (pieces: seq<string>)
    requires dev.Valid() && dev.replied
    modifies dev`next
    ensures dev.Valid() && (pieces, dev.Pending()) == Pieces(old(dev.Pending()), lens)
  {
    hide CString, Small, Pieces;
    PiecesNone(dev.Pending());
    pieces := [];
    var index := 0;
    while index < |lens|
      invariant 0 <= index <= |lens| && dev.Valid() && dev.replied
      invariant (pieces, dev.Pending()) == Pieces(old(dev.Pending()), lens[..index])
    {
      var data := dev.Read(lens[index]);
      pieces := pieces + [data];
      PiecesMore(old(dev.Pending()), lens, index);
      index := index + 1;
    }
    assert lens[..index] == lens;
  }

  lemma PiecesNone(reply: string)
    ensures forall lens: seq<nat> :: Pieces(reply, lens[..0]) == ([], reply)
  {
  }

  lemma PiecesMore(reply: string, lens: seq<nat>, n: nat)
    requires n < |lens|
    ensures var (ds, left) := Pieces(reply, lens[..n]);
            var k := if lens[n] < |left| then lens[n] else |left|;
            Pieces(reply, lens[..n + 1]) == (ds + [left[..k]], left[k..])
  {
    assert lens[..n + 1][..n] == lens[..n];
  }

  lemma ConcatMore(ds: seq<string>, d: string)
    ensures Concat(ds + [d]) == Concat(ds) + d
  {
    assert (ds + [d])[..|ds|] == ds;
  }
}

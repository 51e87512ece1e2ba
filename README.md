# Solid City: the open/closed blasters, verified

This project is a Dafny model of the open/closed example of Solid City
(`SolidCityCLI/OCP/SolidCityOCP.cs`). The example contrasts two blasters:

- `BBlaster` is the "bad" one. It has one `Shoot(type)` with a branch for each
  kind it knows ("Net", "Smoke", "Sparks"). Any other string prints nothing.
- `Blaster` is the "good" one. It is a composite that holds an ordered list of
  other blasters. `Attach` adds a member to the list, `Detach` removes one, and
  `Shoot` fires every member in list order. The leaf blasters are
  `NetLauncher` and `SmokeBomber`.

Everything is in one module, `OCP`, in `ocp.dfy`. The model works like this:

- Console output is an output trace. Every operation that would call
  `Console.WriteLine` instead returns the lines it writes, in order, as a
  `seq<string>`.
- The leaves are field-less classes. A composite member (`Member`) wraps a
  reference to a leaf, so comparing two members compares references. This
  matches C#'s default `Equals`, which `List.Remove` uses.
- `Blaster` is a class whose `blasters` field is a sequence. `Attach` and
  `Detach` replace the sequence held in `blasters`. The C# list never leaves
  `Blaster`, so replacing the value loses nothing.
- `Blaster.Shoot` loops over the list and is proved equal to `Shots`, which
  gives the composite's output as a function of its list.
- `Detach` runs in two steps, as `List.Remove` does. `FirstIndex` is
  `List.IndexOf`, and a slice then drops that index. `Detach` is proved equal
  to the recursive reference `RemoveFirst`.

## Model

| member | source | states |
|---|---|---|
| `OCP.ConditionalShoot` | SolidCityCLI/OCP/SolidCityOCP.cs:6-11 | `BBlaster.Shoot(type)` writes at most one line. It writes a line exactly when the type is "Net", "Smoke" or "Sparks"; any other string writes nothing and raises no error |
| `OCP.ConditionalShootDistinguishesKinds` | SolidCityCLI/OCP/SolidCityOCP.cs:8-10 | the three recognised kinds write three different lines: two kinds give the same output only if they are the same kind |
| `OCP.NetLauncher.Shoot` | SolidCityCLI/OCP/SolidCityOCP.cs:44 | a net launcher writes exactly one line, the same one `BBlaster.Shoot("Net")` writes ("Shoots net!") |
| `OCP.SmokeBomber.Shoot` | SolidCityCLI/OCP/SolidCityOCP.cs:49 | a smoke bomber writes exactly one line, the same one `BBlaster.Shoot("Smoke")` writes ("Shoots smoke!") |
| `OCP.Fire` | SolidCityCLI/OCP/SolidCityOCP.cs:26 | the interface call `blaster.Shoot()` on any member writes exactly one line |
| `OCP.LeafMatchesConditional` | SolidCityCLI/OCP/SolidCityOCP.cs:42-50 | every leaf's kind is one `BBlaster` recognises, and the leaf writes what `BBlaster` writes for that kind ("Net" or "Smoke") |
| `OCP.ShotsMatchConditional` | SolidCityCLI/OCP/SolidCityOCP.cs:6-50 | the composite's whole output equals `BBlaster.Shoot` called once per member with that member's kind, in list order. This covers the kinds Net and Smoke only |
| `OCP.SparksNeverShot` | SolidCityCLI/OCP/SolidCityOCP.cs:10 | no composite ever writes "Shoots sparks!": `BBlaster`'s "Sparks" branch has no leaf class in the source |
| `OCP.Shots` | SolidCityCLI/OCP/SolidCityOCP.cs:23-28 | the composite's output has one line per member, so an empty composite writes nothing |
| `OCP.ShotsAt` | SolidCityCLI/OCP/SolidCityOCP.cs:23-28 | line i of the composite's output is the line of member i, so the output follows list order |
| `OCP.ShotsAppend` | SolidCityCLI/OCP/SolidCityOCP.cs:23-28 | firing the concatenation of two member lists writes the first list's lines and then the second's |
| `OCP.Blaster.Shoot` | SolidCityCLI/OCP/SolidCityOCP.cs:23-28 | the `foreach` loop writes `Shots(blasters)`, the concatenation of each member's output in list order. It has no `modifies` clause, so the member list is unchanged |
| `OCP.Blaster.constructor` | SolidCityCLI/OCP/SolidCityOCP.cs:22 | a new composite holds no members |
| `OCP.Blaster.Attach` | SolidCityCLI/OCP/SolidCityOCP.cs:30-33 | the new list is the old list with the member appended at the end. Earlier members keep their order, and a member already present is added again |
| `OCP.RemoveFirst` | SolidCityCLI/OCP/SolidCityOCP.cs:37 | removing an absent member leaves the list unchanged, and removing a present member shortens the list by exactly one |
| `OCP.RemoveFirstMultiset` | SolidCityCLI/OCP/SolidCityOCP.cs:37 | removal takes exactly one copy of the member out of the list's multiset and leaves every other member's count alone. Duplicates stay: a member held twice is still held once afterwards |
| `OCP.RemoveFirstAt` | SolidCityCLI/OCP/SolidCityOCP.cs:35-38 | when the member first occurs at index i, removal drops exactly index i. All other members stay in their original relative order |
| `OCP.FirstIndex` | SolidCityCLI/OCP/SolidCityOCP.cs:37 | the search that `List.Remove` performs returns -1 exactly when the member is absent. Otherwise it returns the index of the member's first occurrence |
| `OCP.Blaster.Detach` | SolidCityCLI/OCP/SolidCityOCP.cs:35-38 | the new list is `RemoveFirst(old list, member)`: the first occurrence is removed, and an absent member is a silent no-op |
| `OCP.AttachTwiceDetachOnce` | SolidCityCLI/OCP/SolidCityOCP.cs:30-38 | attaching a new member twice and detaching it once leaves exactly one copy, at the end |
| `OCP.ShotsSplit` | SolidCityCLI/OCP/SolidCityOCP.cs:23-28 | the composite's output splits around any one member: the lines of the members before it, then its own line, then the lines of the members after it |
| `OCP.DetachThenShots` | SolidCityCLI/OCP/SolidCityOCP.cs:23-38 | after the first occurrence of a member is detached, the composite writes its old output with that member's line taken out, and every other line stays in order |
| `OCP.Usage` | SolidCityCLI/OCP/SolidCityOCP.cs:55-62 | the usage in `Program.Main` (attach a net launcher, attach a smoke bomber, shoot) writes exactly "Shoots net!" and then "Shoots smoke!" |

## Left out

- Console I/O: `Console.WriteLine` is modelled as lines returned in an output trace. Nothing is written to a terminal.
- Interfaces and virtual dispatch: `IBlaster` is the `Member` datatype over the two leaf classes. A call through the interface is modelled by `Fire`.
- Nested composites: C# lets a `Blaster` be attached to a `Blaster`, since it is an `IBlaster` too. Members here are leaves only. A composite attached to itself, directly or through others, would make `Shoot` recurse forever, and the source does not guard against that.
- Null inputs: members and the kind string are never null here. In C#, `Attach(null)` stores the null. `Shoot` then throws a `NullReferenceException` when it reaches that member, after the earlier members have already written their lines. `Detach(null)` removes the first null, and `BBlaster.Shoot(null)` writes nothing.
- Aliasing of members during `Shoot`: a leaf has no state, so firing a member cannot change the list. C#'s check against modifying a list while enumerating it is never reached and is not modelled.
- `SolidCityCLI/LSP/SolidLSP.cs` (the vehicles example): its `Move` methods only print a fixed line or throw a fixed exception, and its `Main` prints two lines. There is no state or logic to verify.
- `SolidCityCLI/SRP/SolidCitySRP.cs` (the workers example): its methods only print fixed lines. There is no state, input or logic.

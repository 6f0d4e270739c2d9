# ytnetworkvis graph construction in Dafny

ytnetworkvis collects each user's channel subscriptions into a table. It
merges the tables of several users into a single pool of channels, so that a
channel followed by several users is one channel with several owners. It then
draws a graph with the users and the shared channels as nodes. This project
models that core and proves its properties:

- **Resolving channels** (`Resolver`, with facts in `ResolverFacts`).
  - `Person.generateChannels` walks a user's rows in order. For each row it
    reuses the first registered channel with the row's id, or creates a channel
    from the row and appends it. It records the channel once in the person's
    channel list and adds the person as an owner once per row.
  - `Channel.addOwner` appends an owner without checking for duplicates.
  - The loop of `load_users_from_csv` starts a fresh person for each table.
    Every table is merged into one registry.
- **Building the graph** (`NetworkGraph`, with facts in `GraphFacts`).
  - `build_network_graph` keeps the channels with more than one owner, or all
    of them when `display_degree_one` is set.
  - If no channel survives, the graph is empty.
  - Otherwise the surviving channels and all persons become nodes. Each person
    is joined to each of its channels that survived.
  - Each surviving channel gets the size `((owners / max_owners) + 2) * 8`,
    where `max_owners` is the largest owner count among the survivors.
- **Sanitising a user name** (`Sanitize`). The name is used as a file name:
  characters other than word characters, whitespace and `-` are dropped,
  surrounding whitespace is stripped, and spaces become `_`.
- **Concrete cases** (`Scenarios`).
  - Two users share a channel.
  - One user has a channel of its own, shown with the filter on and with it off.
  - There are no users.

Representation:

- **Channels.** A channel object is identified by its position in the registry
  (`ChannelRef`). The registry only ever grows by appending, so a position is
  as stable as an object reference. Python compares channels by identity
  (`ch not in self.channels`, `channel in validlist`), and comparing positions
  is exactly that.
- **Owners.** A channel's owners are the owning persons' names.
- **Nodes.** The graph library keys a channel node by its id and a person node
  by its name, both in one key space. Nodes are therefore a `set<string>`.
- **Edges.** An edge is the pair (person name, channel id).
- **Sizes.** Sizes are exact rationals (`real`), kept in a map from channel id
  to size.

Two facts about the code that the model follows:

- **The filter is a flag.** The only filter setting is the boolean
  `display_degree_one`, which defaults to `False` (main.py:18). With it set,
  every channel is kept. Otherwise only channels with more than one owner
  are kept (main.py:194-197). There is no numeric owner threshold.
- **Division by zero.** With the flag set and every channel ownerless, the
  survivor list is not empty, but `max_owners` is 0. main.py:216 then raises
  `ZeroDivisionError`, and the model returns `ZeroDivisionError` in that case.
  `GraphFacts.LoadedBuild` proves that data produced by loading never
  reaches it, because loading gives every channel at least one owner.

## Model

| member | source | states |
|---|---|---|
| Resolver.FirstField | main.py:161 | The kept category is the text before the first comma: a prefix of the category with no comma in it, followed by a comma unless it is the whole text. |
| Resolver.Find | main.py:152 | A channel is found exactly when some registered channel has the id, and the one found is the first with that id. |
| Resolver.NewChannel | main.py:157-163 | A new channel takes title, id, subscriber count and thumbnail from the row, its category is the first comma-separated field, and it starts with no owners. |
| Resolver.AddOwner | main.py:113-114 | Adding an owner appends exactly one entry at the end, keeps the earlier owners as a prefix, and changes no other field. |
| Resolver.Resolve | main.py:149-164 | A known id reuses the first channel with that id and leaves the registry unchanged. An unknown id appends one new channel made from the row. The registry only grows, its id set gains the row's id, and distinct ids stay distinct. |
| Resolver.Remember | main.py:166-167 | The person's channel list gains the channel only if absent. The old list is a prefix, membership is the old set plus the channel, and a list without repeats stays without repeats. |
| Resolver.AddOwnerAt | main.py:168 | Only the resolved channel gains the owner. Every other channel and every channel's details stay the same. |
| Resolver.RegisterRow | main.py:149-168 | One row adds the owner to the first channel with its id, or creates that channel with exactly this owner. No other owner list or detail changes, and ids stay unique. |
| Resolver.AddRow | main.py:148-168 | One loop iteration: the registry effects above, plus the person's channel list keeps its prefix, never repeats a channel, and covers the ids seen so far plus the row's id. |
| Resolver.GenerateChannels | main.py:146-168 | Over all rows: registered ids become the old ids plus the rows' ids and stay unique. Existing channels keep their details. The person's channels never repeat and name exactly the old ids plus the rows' ids. |
| Resolver.LoadUser | main.py:179-184 | A fresh person per table: it is appended after the earlier persons, who stay unchanged. Its channels name exactly its table's ids, without repeats. |
| Resolver.LoadUsers | main.py:171-186 | After loading all tables: one person per table, in order, with its name and colour. Registry ids are unique and are exactly the ids named in any table. Every person's channels are exactly its own table's ids, without repeats. |
| ResolverFacts.AddRowOwners | main.py:148-168 | One row adds one owner to the channel with its id and none to any other channel. |
| ResolverFacts.GenerateOwners | main.py:146-168 | After a user's rows, each channel's owners are its old owners followed by the user's name once per row naming its id, duplicates included. |
| ResolverFacts.GenerateTakesFirstRow | main.py:152-164 | Every channel created while processing a table has the details of the first row in that table with its id. |
| ResolverFacts.GenerateAppendsUnseenIds | main.py:152-164 | Processing a table appends exactly one channel per id not registered before. |
| ResolverFacts.LoadOwners | main.py:171-186 | After loading, each channel's owners are the users' names in load order, each repeated once per row of that user naming the channel. |
| ResolverFacts.LoadOwnerCounts | main.py:171-186 | After loading, a channel's owner count is the number of rows naming its id across all tables, so it is at least one. |
| Sanitize.DropDisallowed | main.py:266 | The substitution never lengthens the text. Every character left is a word character, whitespace or `-`. Exactly the allowed characters of the input appear, and an input of allowed characters only comes back unchanged. Order and multiplicity are fixed by `Sanitize.DropDisallowedAppend`. |
| Sanitize.DropDisallowedSingle | main.py:266 | On a single character the substitution keeps it exactly when it is a word character, whitespace or `-`. |
| Sanitize.DropDisallowedAppend | main.py:266 | The substitution filters a concatenation part by part. With the single-character case, this makes the result the in-order subsequence of allowed characters, each kept as often as it occurs. |
| Sanitize.Strip | main.py:266 | Stripping returns a contiguous slice with only whitespace cut from each side, and it neither starts nor ends with whitespace. |
| Sanitize.StripKeepsNonSpace | main.py:266 | Every character that is not whitespace survives stripping. |
| Sanitize.ReplaceSpaces | main.py:266 | Each space becomes `_`, and every other character stays in place. |
| Sanitize.SanitizeUsername | main.py:266 | The sanitised name contains no space. Every character is a word character, `-`, or whitespace other than a space. It neither starts nor ends with whitespace. |
| Sanitize.SanitizeIdempotent | main.py:266 | Sanitising a sanitised name returns it unchanged. |
| Sanitize.SanitizeEmptyIff | main.py:266 | The sanitised name is empty exactly when the input has no word character and no `-`. |
| NetworkGraph.Surviving | main.py:193-197 | The surviving list holds exactly the channels that pass the filter, in registry order. With the flag off, those are the channels with more than one owner. |
| NetworkGraph.MaxOwners | main.py:214 | The maximum is at least every surviving owner count and equal to one of them. |
| NetworkGraph.Size | main.py:216 | A size lies between 16 and 24 when owners do not exceed the maximum. It is 24 exactly at the maximum, and above 16 exactly when the channel has an owner. |
| NetworkGraph.Sizes | main.py:215-216 | Sizes are set for exactly the surviving channels' ids, each to the size of a channel carrying that id. |
| NetworkGraph.BuildNetworkGraph | main.py:189-218 | The graph is empty exactly when no channel survives. Division by zero happens exactly when some channel survives and all survivors have no owners. Otherwise the nodes are the surviving ids plus all person names, and the edges are (person, surviving channel of that person). Sizes cover the surviving ids. Every edge joins two nodes, and every size lies in [16, 24]. |
| GraphFacts.EdgeIff | main.py:207-211 | With distinct ids and names, a person and a channel are joined exactly when the channel is in the person's list and survived the filter. |
| GraphFacts.FilteredOut | main.py:193-211 | A filtered-out channel gets no size and no edge, and its id is a node only if it is also some person's name. |
| GraphFacts.SizeOfSurvivor | main.py:214-216 | With unique ids, each surviving channel is sized at `((owners / max_owners) + 2) * 8`, where `max_owners` is the largest owner count among the survivors. |
| GraphFacts.MaximalIff | main.py:214 | A surviving channel's owner count equals `max_owners` exactly when no surviving channel has more owners, and never exceeds it. |
| GraphFacts.ChannelSizes | main.py:213-216 | Among surviving channels: a size exceeds 16 exactly when the channel has an owner. It is 24 exactly when no survivor has more owners. More owners never gives a smaller size. |
| GraphFacts.SizeMonotone | main.py:216 | The size formula is monotone in the owner count. |
| GraphFacts.SurvivingAll | main.py:194-195 | With the flag set, every channel survives, in registry order. |
| GraphFacts.DisplayAllSuperset | main.py:193-218 | With the flag off, building never divides by zero. Whenever the flag-on build succeeds, showing degree-one channels only adds: the nodes, edges and sized channels of the flag-off graph are all present with the flag on. |
| GraphFacts.LoadedBuild | main.py:189-218 | After loading, a channel passes the default filter exactly when more than one row across all tables names it, and building never divides by zero. |
| Scenarios.SharedChannelShown | main.py:146-218 | Two users whose tables name one channel: the graph has the channel and both users, an edge from each user to it, and the channel at size 24. |
| Scenarios.LoneChannelHidden | main.py:197-201 | One user with one channel: the default filter removes it and the graph is empty. |
| Scenarios.LoneChannelShownWhenAllDisplayed | main.py:194-216 | The same user with the flag set: the channel and the user are nodes, joined by one edge, and the channel has size 24. |
| Scenarios.NoUsers | main.py:171-201 | No tables: no persons, no channels, and an empty graph with the flag on or off. |

## Left out

- **Authentication, fetching and the web app.**
  - OAuth and the video-platform API calls that fetch subscriptions are not
    modelled. They are network I/O. The rows they produce are inputs here.
  - Turning subscriber counts into numbers (`pd.to_numeric`) is not modelled.
    A count is an opaque optional integer.
  - app.py's request handling and sessions are not modelled. Only its copy of
    the sanitiser (app.py:93) is, and it is the same expression as main.py:266.
- **Files.**
  - CSV reading and writing, the directory scan, and deriving a user name from a
    file name (`entry.name.replace(".csv", "")`) are not modelled. They are file
    I/O, so `LoadUsers` takes the user names and row tables as given.
  - The order in which the directory lists files is therefore the order of the
    input tables.
  - `str(row["category"])` of a missing pandas value (`"nan"`) is not
    modelled. The category is already text.
  - The `or "user"` fallback for an empty typed name is not modelled. It is
    console input.
- **Colours.** `RandomColor` is randomness. A person's colour is an input
  string.
- **Rendering.**
  - pyvis and networkx rendering is not modelled.
  - Neither are the cosmetic node attributes: label, shape, image, font,
    physics, group, border width, and the person node size of 30. The edge
    colour is not modelled either.
  - Only the channel size is modelled, because it is derived from the data.
  - `print` warnings are not modelled.
  - networkx edges are undirected. The model writes each edge as
    (person name, channel id) and does not identify it with the reversed pair.
- **Character classes.** `Sanitize` models `\w`, `\s` and `str.strip()` over
  ASCII only. Python's Unicode word and whitespace characters beyond ASCII are
  treated as neither, so the model drops them where Python would keep them.
- **Floating point.** Sizes are exact rationals. Python computes them as
  floats, which can differ in the last bits.
- **Sizes when ids repeat.**
  - NetworkGraph.Sizes: states only that each size belongs to some surviving
    channel with that id. It does not say which one when two surviving
    channels share an id (the later one wins in Python).
  - Registries built by loading never repeat an id (`Resolver.LoadUsers`).
  - For registries with unique ids, `GraphFacts.SizeOfSurvivor` gives the
    exact size `Size(owners, max_owners)` of each surviving channel.
- **Edges when names or ids repeat.** GraphFacts.EdgeIff: stated only for
  registries with distinct channel ids and persons with distinct names.
  - With repeated names, the edge set is still exactly
    `NetworkGraph.SurvivingEdges` (`BuildNetworkGraph`'s contract), but one
    person's edges may come from a namesake.

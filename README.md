# cloud-config directive executor and set-user-password directive

A Dafny model of two pieces of cloudbase-init's first-boot provisioning logic.

**The cloud-config executor** (`CloudConfigPluginExecutor`, `CloudConfigPlugin`).
Every directive name gets a priority. The priority is the name's index in the configured
`cloud_config_plugins` list, or the sentinel 999 (`DEFAULT_ORDER_VALUE`) when the list does not name it.
The document's (name, payload) pairs are stable-sorted by that priority.
`execute` then calls each pair's handler in that order.
A name with no registered handler is logged and skipped.
A handler that raises is logged, and the loop goes on.
`from_yaml` turns the loader's `TypeError`, `ValueError` and `AttributeError` into a `CloudConfigError`.
`process_non_multipart` logs that error and runs nothing.

**The set-user-password directive** (`SetUserPasswordPlugin`), as its unit tests pin it down.
It picks the password from one of three sources, in this order:
- the service's admin password, when `inject_user_password` is set;
- a password an earlier plugin left in the shared data;
- a random password of the OS's maximum length.

It sets that password on the local account. It then publishes the password to the metadata service at most once.
It skips publication when the service already holds a password or offers no SSH public key.
Otherwise it posts base64(RSA-encrypt(key, UTF-8 bytes of the password)).
Publication is skipped, and logged, when the service cannot take posted passwords.

Files:
- `wrappers.dfy`: `Option` and `Result`.
- `cloudconfig_order.dfy` (module `CloudConfigOrder`): the priority, a stable insertion sort over any key, and its stability and uniqueness lemmas.
- `cloudconfig.dfy` (module `CloudConfig`): the executor, the dispatch loop, `from_yaml` and `process_non_multipart`.
- `utf8.dfy` (module `Utf8`): the UTF-8 encoding that `str.encode()` performs (RFC 3629), and a strict decoder that inverts it.
- `setuserpassword.dfy` (module `SetUserPasswordPlugin`): the directive.

Modelling choices:
- A handler is a function `(state, payload) -> Returned(state') | Raised(state')`.
  The session state is an abstract type parameter that each handler may change.
  A raised exception becomes a result value; the dispatch boundary turns it into a `Failed` event.
- The registry (`factory.load_plugins()`) is a map from name to handler.
- The dispatch trace has exactly one event per directive: `Invoked`, `Failed` or `Unsupported`.
- The YAML loader is a parameter. It yields a mapping of string keys (as a sequence in the order `plugins.items()` yields them), or something that is not such a mapping, or a raised exception.
- The configuration options (`cloud_config_plugins`, `inject_user_password`, `username`) are explicit parameters.
- The metadata service and the OS utilities are values that fix their answers:
  the admin password, the public keys, `is_password_set`, `can_post_password`, the response of `post_password`,
  `user_exists`, the maximum password length, and the random password generated for each length.
  Randomness is therefore a parameter.
- Key loading, RSA `public_encrypt` and `base64.b64encode` are function-valued parameters, so they stay uninterpreted.
  Loading a key and encrypting can fail. Such a failure is returned as an error that reaches the plugin's caller.
- Every collaborator call and every log line of the directive is appended to a trace of `Call`s.
  That lets the contracts say "called once", "never called" and "called with X".

Two details of the code that the model states explicitly:
- `from_yaml` catches only `TypeError`, `ValueError` and `AttributeError` from the loader (cloudconfig.py:73) and turns them into a `CloudConfigError`.
  Any other loader exception propagates out of `process_non_multipart`.
  So does the `TypeError` of `cls(**content)` (cloudconfig.py:78).
  That `TypeError` is raised when the document is not a mapping with string keys.
  It is also raised when a key is `self`, which collides with the `self` parameter of `__init__` (cloudconfig.py:53).
  In every one of these cases no handler runs.
- The comment at cloudconfig.py:58-59 calls the sentinel 999 "a sane and unreachable value".
  It is unreachable only while the ordering list has at most 999 entries (`ListedBeforeUnlisted`).
  `SentinelReachable` shows a 1001-entry list in which a listed name sorts after an unlisted one.

## Model

| member | source | states |
|---|---|---|
| `CloudConfigOrder.Priority` | cloudbaseinit/plugins/common/userdataplugins/cloudconfig.py:54-60 | a listed name gets the index of its first occurrence in the ordering list; an unlisted name gets exactly 999 |
| `CloudConfigOrder.IndexOf` | cloudbaseinit/plugins/common/userdataplugins/cloudconfig.py:56 | `list.index`: an index holding the name, with no earlier occurrence |
| `CloudConfigOrder.Sort` | cloudbaseinit/plugins/common/userdataplugins/cloudconfig.py:62-64 | the sort yields a permutation of its input (same length, same multiset) in non-decreasing key order |
| `CloudConfigOrder.SortStable` | cloudbaseinit/plugins/common/userdataplugins/cloudconfig.py:62-64 | stability: for every key, the entries with that key appear in the output in their input order |
| `CloudConfigOrder.StableSortUnique` | cloudbaseinit/plugins/common/userdataplugins/cloudconfig.py:62-64 | two key-sorted sequences with the same entries per key class are equal, so any stable sort (Python's `sorted` included) gives the model's result |
| `CloudConfigOrder.SortByPriority` | cloudbaseinit/plugins/common/userdataplugins/cloudconfig.py:62-64 | `_expected_plugins` is a permutation of the input pairs with non-decreasing priority |
| `CloudConfigOrder.SortByPriorityStable` | cloudbaseinit/plugins/common/userdataplugins/cloudconfig.py:62-64 | pairs of equal priority keep the order in which `plugins.items()` yields them |
| `CloudConfigOrder.SortByPriorityUnique` | cloudbaseinit/plugins/common/userdataplugins/cloudconfig.py:62-64 | any priority-ordered, stable rearrangement of the pairs is exactly `_expected_plugins` |
| `CloudConfigOrder.ListedBeforeUnlisted` | cloudbaseinit/plugins/common/userdataplugins/cloudconfig.py:39-64 | with at most 999 ordering entries, every listed directive comes before every unlisted one after sorting |
| `CloudConfigOrder.SentinelReachable` | cloudbaseinit/plugins/common/userdataplugins/cloudconfig.py:58-60 | the "unreachable" sentinel can be exceeded: some ordering list puts a listed name after an unlisted one |
| `CloudConfig.NewExecutor` | cloudbaseinit/plugins/common/userdataplugins/cloudconfig.py:53-64 | the executor holds the pairs permuted, in non-decreasing priority, and stable within every priority |
| `CloudConfig.FromYaml` | cloudbaseinit/plugins/common/userdataplugins/cloudconfig.py:53-78 | an executor is built exactly when the stream loads as a mapping with no key `self`; a `self` key gives TypeError; a CloudConfigError results exactly when the loader raised TypeError, ValueError or AttributeError |
| `CloudConfig.Dispatch` | cloudbaseinit/plugins/common/userdataplugins/cloudconfig.py:84-93 | the specification of the loop: one event per pair, each step from the state the previous steps left |
| `CloudConfig.DispatchAt` | cloudbaseinit/plugins/common/userdataplugins/cloudconfig.py:84-93 | the i-th event is the i-th pair's own lookup and call, made on the state the first i pairs left |
| `CloudConfig.DispatchAppend` | cloudbaseinit/plugins/common/userdataplugins/cloudconfig.py:84-93 | dispatching `a + b` is dispatching `a`, then `b` from the state `a` left, with the events concatenated |
| `CloudConfig.DispatchEvents` | cloudbaseinit/plugins/common/userdataplugins/cloudconfig.py:84-93 | every pair is visited once, in order: its event names it; it is Unsupported exactly when no handler is registered; otherwise the handler got the pair's own payload, and the event is Failed exactly when the handler raised |
| `CloudConfig.FailureDoesNotStopLaterHandlers` | cloudbaseinit/plugins/common/userdataplugins/cloudconfig.py:90-93 | after a Failed event, every later pair with a registered handler still has its handler called with its own payload |
| `CloudConfig.Execute` | cloudbaseinit/plugins/common/userdataplugins/cloudconfig.py:80-93 | the loop's final state and events are the dispatch specification's; one event per pair, in order, Unsupported exactly for unregistered names, payloads passed unchanged; no handler exception escapes the loop |
| `CloudConfig.ProcessNonMultipart` | cloudbaseinit/plugins/common/userdataplugins/cloudconfig.py:101-108 | a CloudConfigError is logged twice and runs no handler; an untranslated exception escapes with no handler run; otherwise the executor runs |
| `Utf8.DecodeEncode` | cloudbaseinit/tests/plugins/common/test_setuserpassword.py:53-54 | decoding the UTF-8 encoding of a password gives the password back |
| `Utf8.EncodeInjective` | cloudbaseinit/tests/plugins/common/test_setuserpassword.py:53-54 | distinct passwords have distinct UTF-8 encodings |
| `SetUserPasswordPlugin.PasswordBytes` | cloudbaseinit/tests/plugins/common/test_setuserpassword.py:53-54 | the bytes handed to `public_encrypt` decode to the password |
| `SetUserPasswordPlugin.EncryptPassword` | cloudbaseinit/tests/plugins/common/test_setuserpassword.py:38-56 | the key is loaded first; success exactly when loading and encryption succeed; the result is the base64 of the encryption of the password's UTF-8 bytes; the key is released exactly when it was loaded |
| `SetUserPasswordPlugin.GetSshPublicKey` | cloudbaseinit/tests/plugins/common/test_setuserpassword.py:58-66 | `get_public_keys` is called once, and the result is its first element (none when it returns none) |
| `SetUserPasswordPlugin.GetPassword` | cloudbaseinit/tests/plugins/common/test_setuserpassword.py:74-103 | injection returns the admin password; otherwise a stored password is returned with no call; otherwise the maximum length is asked once, and the generator is called once with it and its result returned |
| `SetUserPasswordPlugin.PasswordFromOneSource` | cloudbaseinit/tests/plugins/common/test_setuserpassword.py:93-103 | the service is asked exactly under injection; the generator is called exactly when nothing was injected or stored, and only for the maximum length; never both; no call when reusing |
| `SetUserPasswordPlugin.UserName` | cloudbaseinit/tests/plugins/common/test_setuserpassword.py:218-219 | the user name from the shared data, defaulting to the configured one |
| `SetUserPasswordPlugin.SetPassword` | cloudbaseinit/tests/plugins/common/test_setuserpassword.py:175-193 | the password `_get_password` picks is returned and set with one `set_user_password(user, pw)` call, the last of the trace |
| `SetUserPasswordPlugin.MetadataPublication` | cloudbaseinit/tests/plugins/common/test_setuserpassword.py:125-173 | already set: success, only the "already set" log; no key: success, only the "No SSH public key" log, no post; key present: one `get_public_keys`, one `_encrypt_password(key, pw)`, then one post of its result whose answer is returned (or the encryption error), and no log line |
| `SetUserPasswordPlugin.PublishAtMostOnce` | cloudbaseinit/tests/plugins/common/test_setuserpassword.py:139-173 | at most one post, last in the trace, only when no password is set and a key exists; the posted value is the encryption of the password with the first key, and the result is the service's answer |
| `SetUserPasswordPlugin.PostedUnlessGuarded` | cloudbaseinit/tests/plugins/common/test_setuserpassword.py:139-173 | `post_password` is called exactly when no password is set, a key exists and encryption succeeds |
| `SetUserPasswordPlugin.SetMetadataPassword` | cloudbaseinit/tests/plugins/common/test_setuserpassword.py:125-173 | the method's result and trace are the publication specification's, with at most one post |
| `SetUserPasswordPlugin.Execute` | cloudbaseinit/tests/plugins/common/test_setuserpassword.py:195-242 | trace: `user_exists`, the password's source calls, `set_user_password`, the update log, then publication if `can_post_password` else the "not supported" log; result (1, False) unless encryption raised; at most one post; none when posting is unsupported or already done |

## Left out

- YAML parsing itself: the loader is a parameter that returns a mapping, a non-mapping, or an exception.
- `factory.load_plugins()` and the individual cloud-config handlers: they are the abstract registry and handler functions.
- `CloudConfigPlugin.process` and `get_payload`: only `process_non_multipart` is modelled, on the payload text.
- CloudConfig.Execute: only exceptions derived from `Exception` are caught (cloudconfig.py:92). A handler that raises another `BaseException` (`SystemExit`, `KeyboardInterrupt`) ends the loop and skips every later directive. Handlers here cannot raise that, so this case is not modelled.
- The order within a priority class is the order of `plugins.items()` on the `**plugins` dict. That is the document's order only where dicts keep insertion order (Python 3.7 and later). A repeated YAML key leaves a single entry. The model takes the loader's sequence as given.
- Log formatting and `LOG.exception` tracebacks: events keep only their kind, the directive name and the payload.
- The `set_user_password` plugin's own implementation file is not part of this model. The model follows the assertions of its unit tests.
- SetUserPasswordPlugin.Execute: requires that the user exists, because no test shows what `execute` does otherwise.
- `execute`'s storing of the password back into the shared data: no test asserts it.
- The "Using admin_pass" warning and the "Setting the user's password" log line: no test asserts them.
- SetUserPasswordPlugin.GetPassword: Python truthiness is not modelled. An empty admin password or an empty stored password is used as it is, because the tests show only non-empty values.
- SetUserPasswordPlugin.GetSshPublicKey: an empty-string key counts as a key. The tests do not show that case.
- The empty key list yields "no key". No test exercises it: the `no_pub_keys` test passes keys anyway.
- `post_password`'s response is modelled as a `bool`, and the source's `True` short-cut results as `true`.
- The release of the key context is one `ReleaseKey` trace entry. OS handles and memory are not modelled.
- The OS utilities and the metadata service are fixed answers for the duration of one run. A service whose answers change between calls is not modelled.
- Strings are sequences of Unicode scalar values. Python strings holding lone surrogates, which `str.encode()` rejects, are not representable.

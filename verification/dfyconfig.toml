# Checks every module of the project together.
includes = ["**/*.dfy"]
